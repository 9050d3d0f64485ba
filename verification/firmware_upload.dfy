/**
 * A firmware upload end to end: one sender, one receiver and the messages between them.
 * Messages may be lost; they are neither duplicated nor reordered, and no timeout fires.
 */
module FirmwareUpload {
  import opened Base
  import opened Firmware

  datatype System = System(tx: Transfer, rx: Transfer, toRx: seq<Packet>, toTx: seq<Reply>,
                           dropped: seq<Packet>, delivered: seq<Delivery>, notified: seq<Reply>)

  /** `sent` says whether the network takes the packet that a reply calls for. */
  datatype Event =
    | DeliverBlock(garbage: nat -> Word, now: int)
    | DeliverReply(sent: bool, now: int)
    | LoseBlock
    | LoseReply

  datatype Job = Job(src: seq<Word>, ubea: bool, me: Address, peer: Address)

  ghost predicate WellFormed(s: System) {
    Sending(s.tx) && Consistent(s.rx)
  }

  /** The state right after artnet_send_firmware. */
  function Begin(job: Job, rx: Transfer, sent: bool, now: int): (s: System)
    requires 2 * |job.src| < 0x8000_0000 && Consistent(rx)
    ensures WellFormed(s)
  {
    var tx := Start(job.peer, job.src, job.ubea, Blank());
    if sent then System(Advance(tx, now), rx, [NextPacket(tx, job.me)], [], [], [], [])
    else System(tx, rx, [], [], [], [], [])
  }

  function Step(s: System, e: Event, me: Address): (r: System)
    requires WellFormed(s)
    ensures WellFormed(r)
  {
    match e
    case DeliverBlock(garbage, now) =>
      if s.toRx == [] then s
      else
        ReceiveKeepsConsistent(s.rx, s.toRx[0], Granted(garbage), now);
        var r := Receive(s.rx, s.toRx[0], Granted(garbage), now);
        s.(rx := r.slot, toRx := s.toRx[1..],
           toTx := s.toTx + if r.reply.Some? then [r.reply.value] else [],
           delivered := s.delivered + if r.delivered.Some? then [r.delivered.value] else [])
    case DeliverReply(sent, now) =>
      if s.toTx == [] then s
      else
        var a := HandleReply(s.tx, s.toTx[0], me, sent, now);
        s.(tx := a.slot, toTx := s.toTx[1..],
           toRx := s.toRx + if a.packet.Some? then [a.packet.value] else [],
           notified := s.notified + if a.notified.Some? then [a.notified.value] else [])
    case LoseBlock =>
      if s.toRx == [] then s else s.(toRx := s.toRx[1..], dropped := s.dropped + [s.toRx[0]])
    case LoseReply =>
      if s.toTx == [] then s else s.(toTx := s.toTx[1..])
  }

  function Run(s: System, es: seq<Event>, me: Address): (r: System)
    requires WellFormed(s)
    ensures WellFormed(r)
    decreases |es|
  {
    if es == [] then s else Run(Step(s, es[0], me), es[1..], me)
  }

  // ----- Invariant of a run

  function BlockCount(src: seq<Word>): nat { CeilDiv(2 * |src|, BLOCK_BYTES) }

  /** More than one block, a short last block, and few enough blocks for their 8-bit ids. */
  predicate Regular(words: nat) {
    BLOCK_WORDS < words && words % BLOCK_WORDS != 0 && words / BLOCK_WORDS < UINT8_MAX
  }

  function Complete(job: Job): Delivery { Delivery(job.ubea, job.src, |job.src|) }

  /** The receiver holds exactly the first k blocks. */
  ghost predicate HasReceived(rx: Transfer, job: Job, k: nat) {
    if k == 0 then Idle(rx)
    else
      && rx.peer == job.me && rx.ubea == job.ubea
      && rx.bytesTotal == 2 * |job.src| && |rx.data| == |job.src|
      && rx.bytesCurrent == BLOCK_BYTES * k && BLOCK_WORDS * k <= |job.src|
      && rx.expectedBlock == k
      && rx.data[..BLOCK_WORDS * k] == job.src[..BLOCK_WORDS * k]
  }

  ghost predicate InFlight(ps: seq<Packet>, job: Job, k: nat) {
    |ps| == 1 && IsBlock(ps[0], job.src, job.ubea, k) && ps[0].from == job.me
  }

  ghost predicate Underway(s: System, job: Job, k: nat) {
    && HasReceived(s.rx, job, k)
    && s.tx.ubea == job.ubea && s.delivered == [] && s.notified == []
    && (|| (InFlight(s.toRx, job, k) && HasSent(s.tx, job.src, k + 1) && s.toTx == [] && s.dropped == [])
        || (s.toRx == [] && HasSent(s.tx, job.src, k) && 1 <= k && s.toTx == [BlockGood] && s.dropped == [])
        || (s.toRx == [] && HasSent(s.tx, job.src, k) && s.toTx == [] && s.dropped == [])
        || (InFlight(s.dropped, job, k) && HasSent(s.tx, job.src, k + 1) && s.toTx == [] && s.toRx == []))
  }

  ghost predicate Finished(s: System, job: Job) {
    && Idle(s.rx) && s.delivered == [Complete(job)] && s.toRx == s.dropped == []
    && if s.notified == [] then
         HasSent(s.tx, job.src, BlockCount(job.src)) && (s.toTx == [] || s.toTx == [AllGood])
       else s.tx == Blank() && s.toTx == [] && s.notified == [AllGood]
  }

  ghost predicate Healthy(s: System, job: Job) {
    Finished(s, job) || exists k: nat :: Underway(s, job, k)
  }

  lemma ReceiveFirst(rx: Transfer, p: Packet, job: Job, garbage: nat -> Word, now: int)
    requires 2 * |job.src| < 0x8000_0000 && BLOCK_WORDS < |job.src|
    requires Consistent(rx) && Idle(rx)
    requires IsBlock(p, job.src, job.ubea, 0) && p.from == job.me
    ensures
      var r := Receive(rx, p, Granted(garbage), now);
      r.reply == Some(BlockGood) && r.delivered == None && HasReceived(r.slot, job, 1)
  {
    assert p.data[..BLOCK_WORDS] == job.src[..BLOCK_WORDS];
  }

  lemma ReceiveCont(rx: Transfer, p: Packet, job: Job, k: nat, garbage: nat -> Word, now: int)
    requires 2 * |job.src| < 0x8000_0000
    requires 1 <= k < UINT8_MAX && BLOCK_WORDS * (k + 1) <= |job.src|
    requires Consistent(rx) && HasReceived(rx, job, k)
    requires IsBlock(p, job.src, job.ubea, k) && p.from == job.me
    ensures
      var r := Receive(rx, p, Granted(garbage), now);
      r.reply == Some(BlockGood) && r.delivered == None && HasReceived(r.slot, job, k + 1)
  {
    TotalBlocksOf(2 * |job.src|);
    assert AcceptsCont(rx, p) && WriteSpan(rx, p).0 == BLOCK_WORDS * k;
    assert p.data == Block(job.src, k);
    var slot := Receive(rx, p, Granted(garbage), now).slot;
    assert slot.data[..BLOCK_WORDS * (k + 1)] == rx.data[..BLOCK_WORDS * k] + p.data;
  }

  lemma ReceiveLast(rx: Transfer, p: Packet, job: Job, k: nat, garbage: nat -> Word, now: int)
    requires 2 * |job.src| < 0x8000_0000
    requires 1 <= k < UINT8_MAX && BLOCK_WORDS * k < |job.src| < BLOCK_WORDS * (k + 1)
    requires Consistent(rx) && HasReceived(rx, job, k)
    requires IsBlock(p, job.src, job.ubea, k) && p.from == job.me
    ensures Receive(rx, p, Granted(garbage), now) == Received(Reset(rx), Some(AllGood), Some(Complete(job)))
  {
    LastBlockAccepted(rx, p, job, k);
    LastBlockCompletes(rx.data, p, job, k);
  }

  lemma LastBlockAccepted(rx: Transfer, p: Packet, job: Job, k: nat)
    requires 2 * |job.src| < 0x8000_0000
    requires 1 <= k < UINT8_MAX && BLOCK_WORDS * k < |job.src| < BLOCK_WORDS * (k + 1)
    requires Consistent(rx) && HasReceived(rx, job, k)
    requires IsBlock(p, job.src, job.ubea, k) && p.from == job.me
    ensures AcceptsLast(rx, p) && WriteSpan(rx, p) == (BLOCK_WORDS * k, |job.src| - BLOCK_WORDS * k)
  {
    assert ByteLength(p.length) == 2 * |job.src|;
    assert TotalBlocks(2 * |job.src|) - 1 == k by { TotalBlocksOf(2 * |job.src|); }
    assert BlockIndex(rx.expectedBlock, p.blockId) == k;
    ShortTail(|job.src|, k);
  }

  lemma ShortTail(words: nat, k: nat)
    requires BLOCK_WORDS * k < words < BLOCK_WORDS * (k + 1)
    ensures 2 * words % BLOCK_BYTES / 2 == words - BLOCK_WORDS * k
  {
    var rest := words - BLOCK_WORDS * k;
    assert 2 * words == BLOCK_BYTES * k + 2 * rest;
    assert 2 * words / BLOCK_BYTES == k;
  }

  lemma LastBlockCompletes(data: seq<Word>, p: Packet, job: Job, k: nat)
    requires BLOCK_WORDS * k < |job.src| < BLOCK_WORDS * (k + 1) && |data| == |job.src|
    requires data[..BLOCK_WORDS * k] == job.src[..BLOCK_WORDS * k]
    requires p.data == Pad(Block(job.src, k))
    ensures Splice(data, BLOCK_WORDS * k, p.data[..|job.src| - BLOCK_WORDS * k]) == job.src
  {
    assert p.data[..|job.src| - BLOCK_WORDS * k] == Block(job.src, k);
    assert job.src == job.src[..BLOCK_WORDS * k] + Block(job.src, k);
  }

  lemma DeliverBlockUnderway(s: System, garbage: nat -> Word, now: int, job: Job, k: nat)
    requires Regular(|job.src|) && WellFormed(s) && Underway(s, job, k) && s.toRx != []
    ensures Healthy(Step(s, DeliverBlock(garbage, now), job.me), job)
  {
    hide Receive;
    var r := Step(s, DeliverBlock(garbage, now), job.me);
    var p := s.toRx[0];
    if k == 0 {
      ReceiveFirst(s.rx, p, job, garbage, now);
      assert Underway(r, job, 1);
    } else if BLOCK_WORDS * (k + 1) <= |job.src| {
      ReceiveCont(s.rx, p, job, k, garbage, now);
      assert Underway(r, job, k + 1);
    } else {
      ReceiveLast(s.rx, p, job, k, garbage, now);
      assert Finished(r, job);
    }
  }

  lemma DeliverReplyUnderway(s: System, sent: bool, now: int, job: Job, k: nat)
    requires Regular(|job.src|) && WellFormed(s) && Underway(s, job, k) && s.toTx != []
    ensures Underway(Step(s, DeliverReply(sent, now), job.me), job, k)
  {
    assert s.tx.bytesCurrent < s.tx.bytesTotal;
    NextPacketIsBlock(s.tx, job.src, job.me, now, k);
  }

  lemma StepUnderway(s: System, e: Event, job: Job, k: nat)
    requires Regular(|job.src|) && WellFormed(s) && Underway(s, job, k)
    ensures Healthy(Step(s, e, job.me), job)
  {
    if e.DeliverBlock? && s.toRx != [] {
      DeliverBlockUnderway(s, e.garbage, e.now, job, k);
    } else if e.DeliverReply? && s.toTx != [] {
      DeliverReplyUnderway(s, e.sent, e.now, job, k);
    } else {
      assert Underway(Step(s, e, job.me), job, k);
    }
  }

  lemma StepFinished(s: System, e: Event, job: Job)
    requires WellFormed(s) && Finished(s, job) && |job.src| > 0
    ensures Finished(Step(s, e, job.me), job)
  {}

  lemma {:induction false} RunHealthy(s: System, es: seq<Event>, job: Job)
    requires Regular(|job.src|) && WellFormed(s) && Healthy(s, job)
    ensures Healthy(Run(s, es, job.me), job)
    decreases |es|
  {
    if es != [] {
      if Finished(s, job) {
        StepFinished(s, es[0], job);
      } else {
        var k: nat :| Underway(s, job, k);
        StepUnderway(s, es[0], job, k);
      }
      RunHealthy(Step(s, es[0], job.me), es[1..], job);
    }
  }

  lemma BeginHealthy(job: Job, rx: Transfer, sent: bool, now: int)
    requires Regular(|job.src|) && Consistent(rx) && Idle(rx)
    ensures Healthy(Begin(job, rx, sent, now), job)
  {
    var tx := Start(job.peer, job.src, job.ubea, Blank());
    NextPacketIsBlock(tx, job.src, job.me, now, 0);
    assert Underway(Begin(job, rx, sent, now), job, 0);
  }

  // ----- Safety

  /** The bytes cut off by the sender that the receiver has not seen. */
  function Outstanding(s: System): int {
    if s.toRx == [] && s.dropped == [] then 0
    else Min(BLOCK_BYTES, s.tx.bytesTotal - s.rx.bytesCurrent)
  }

  /**
   * At most one message is under way. Until the receiver completes, the sender is ahead of it
   * by exactly the block in flight (or lost), and the received prefix is the source's. When it
   * completes it has handed over exactly the source, once, and its slot is idle; the sender
   * reports ALLGOOD only then, once, and never reports a failure.
   */
  ghost predicate Safe(s: System, job: Job) {
    && |s.toRx| + |s.toTx| + |s.dropped| <= 1
    && (s.delivered == [] ==>
          && s.notified == []
          && s.tx.bytesCurrent == s.rx.bytesCurrent + Outstanding(s)
          && (|s.toRx| + |s.dropped| == 1 ==> Outstanding(s) > 0)
          && 0 <= s.rx.bytesCurrent <= 2 * |s.rx.data|
          && s.rx.data[..s.rx.bytesCurrent / 2] <= job.src)
    && (s.delivered != [] ==> s.delivered == [Complete(job)] && Idle(s.rx))
    && (s.notified != [] ==> s.notified == [AllGood] && s.delivered == [Complete(job)])
  }

  lemma HealthyIsSafe(s: System, job: Job)
    requires Regular(|job.src|) && WellFormed(s) && Healthy(s, job)
    ensures Safe(s, job)
  {
    if !Finished(s, job) {
      var k: nat :| Underway(s, job, k);
      assert k > 0 ==> s.rx.data[..BLOCK_WORDS * k] == job.src[..BLOCK_WORDS * k];
    }
  }

  // ----- A receiver that is busy

  /** The first block is refused: the receiver is as it was, and the sender gives up once it hears of it. */
  ghost predicate Rebuffed(s: System, job: Job, rx: Transfer) {
    && s.rx == rx && s.delivered == []
    && if s.notified != [] then s.notified == [Fail] && s.tx == Blank() && s.toRx == [] && s.toTx == []
       else
         && s.tx.bytesTotal > 0
         && ((InFlight(s.toRx, job, 0) && s.toTx == []) || (s.toRx == [] && (s.toTx == [] || s.toTx == [Fail])))
  }

  lemma StepRebuffed(s: System, e: Event, job: Job, rx: Transfer)
    requires WellFormed(s) && Rebuffed(s, job, rx) && rx.peer != 0
    ensures Rebuffed(Step(s, e, job.me), job, rx)
  {}

  lemma {:induction false} RunRebuffed(s: System, es: seq<Event>, job: Job, rx: Transfer)
    requires WellFormed(s) && Rebuffed(s, job, rx) && rx.peer != 0
    ensures Rebuffed(Run(s, es, job.me), job, rx)
    decreases |es|
  {
    if es != [] {
      StepRebuffed(s, es[0], job, rx);
      hide Rebuffed, Step;
      RunRebuffed(Step(s, es[0], job.me), es[1..], job, rx);
    }
  }

  lemma BeginRebuffed(job: Job, rx: Transfer, sent: bool, now: int)
    requires Regular(|job.src|) && Consistent(rx)
    ensures Rebuffed(Begin(job, rx, sent, now), job, rx)
  {
    NextPacketIsBlock(Start(job.peer, job.src, job.ubea, Blank()), job.src, job.me, now, 0);
  }

  /**
   * From any receiver, idle or in the middle of another transfer: the sender reports at most one
   * outcome, and ALLGOOD only when exactly the source has been handed over.
   */
  lemma AllGoodIsTrue(job: Job, rx: Transfer, sent: bool, now: int, es: seq<Event>)
    requires Regular(|job.src|) && Consistent(rx)
    ensures
      var s := Run(Begin(job, rx, sent, now), es, job.me);
      && |s.notified| <= 1
      && (AllGood in s.notified ==> s.delivered == [Complete(job)])
      && (Fail in s.notified <==> rx.peer != 0 && s.notified != [])
  {
    if rx.peer == 0 {
      UploadIsSafe(job, rx, sent, now, es);
    } else {
      BeginRebuffed(job, rx, sent, now);
      RunRebuffed(Begin(job, rx, sent, now), es, job, rx);
    }
    hide Run, Begin;
  }

  /** A busy receiver refuses: it keeps its transfer, and the sender reports FAIL and is free again. */
  lemma BusyReceiverRefuses(job: Job, rx: Transfer, garbage: nat -> Word, sent: bool, start: int, now: int)
    requires Regular(|job.src|) && Consistent(rx) && rx.peer != 0
    ensures
      var s := Run(Begin(job, rx, true, start), [DeliverBlock(garbage, now), DeliverReply(sent, now)], job.me);
      s.notified == [Fail] && s.tx == Blank() && s.rx == rx && s.delivered == []
  {
    BeginRebuffed(job, rx, true, start);
    var s := Begin(job, rx, true, start);
    NextPacketIsBlock(Start(job.peer, job.src, job.ubea, Blank()), job.src, job.me, start, 0);
    var e, f := DeliverBlock(garbage, now), DeliverReply(sent, now);
    var mid := Step(s, e, job.me);
    assert mid.toTx == [Fail] && mid.tx == s.tx && mid.rx == rx;
    ReplyMeans(mid.tx, Fail, job.me, sent, now);
    var end := Step(mid, f, job.me);
    assert end.notified == [Fail];
    assert [e, f][1..] == [f] && [f][1..] == [];
    assert Run(s, [e, f], job.me) == Run(mid, [f], job.me) == Run(end, [], job.me) == end;
  }

  /** Every run of a regular upload is safe, with any losses and any refused sends. */
  lemma UploadIsSafe(job: Job, rx: Transfer, sent: bool, now: int, es: seq<Event>)
    requires Regular(|job.src|) && Consistent(rx) && Idle(rx)
    ensures Safe(Run(Begin(job, rx, sent, now), es, job.me), job)
  {
    BeginHealthy(job, rx, sent, now);
    RunHealthy(Begin(job, rx, sent, now), es, job);
    HealthyIsSafe(Run(Begin(job, rx, sent, now), es, job.me), job);
  }
}
