/**
 * Exactly which firmware lengths an undisturbed upload gets across. Senders wrap block ids
 * modulo 255, receivers unwrap them modulo 256, and only a short last block is typed LAST.
 */
module FirmwareLimits {
  import opened Base
  import opened Firmware
  import opened FirmwareUpload

  /** One exchange: the block in flight arrives, and so does the reply to it. */
  function Round(s: System, garbage: nat -> Word, now: int, me: Address): (r: System)
    requires WellFormed(s)
    ensures WellFormed(r)
  {
    Step(Step(s, DeliverBlock(garbage, now), me), DeliverReply(true, now), me)
  }

  function Rounds(s: System, m: nat, garbage: nat -> Word, now: int, me: Address): (r: System)
    requires WellFormed(s)
    ensures WellFormed(r)
    decreases m
  {
    if m == 0 then s else Round(Rounds(s, m - 1, garbage, now, me), garbage, now, me)
  }

  /** The receiver got the source and is free again, and the sender knows. */
  ghost predicate Completed(s: System, job: Job) {
    s.delivered == [Complete(job)] && Idle(s.rx) && s.notified == [AllGood]
  }

  ghost predicate Completes(job: Job, rx: Transfer, garbage: nat -> Word, now: int)
    requires 2 * |job.src| < 0x8000_0000 && Consistent(rx)
  {
    exists m: nat :: Completed(Rounds(Begin(job, rx, true, now), m, garbage, now, job.me), job)
  }

  ghost predicate Waiting(s: System, job: Job, k: nat) {
    Underway(s, job, k) && InFlight(s.toRx, job, k)
  }

  ghost predicate Silent(s: System) { s.toRx == [] && s.toTx == [] }

  lemma BeginWaiting(job: Job, rx: Transfer, now: int)
    requires 0 < 2 * |job.src| < 0x8000_0000 && Consistent(rx) && Idle(rx)
    ensures Waiting(Begin(job, rx, true, now), job, 0)
  {
    var tx := Start(job.peer, job.src, job.ubea, Blank());
    NextPacketIsBlock(tx, job.src, job.me, now, 0);
  }

  /** A block that is not the last one goes across and brings the next one into flight. */
  lemma MiddleRound(s: System, job: Job, k: nat, garbage: nat -> Word, now: int)
    requires 2 * |job.src| < 0x8000_0000 && WellFormed(s) && Waiting(s, job, k)
    requires k < UINT8_MAX && BLOCK_WORDS * (k + 1) < |job.src|
    ensures Waiting(Round(s, garbage, now, job.me), job, k + 1)
  {
    hide Receive;
    var mid := Step(s, DeliverBlock(garbage, now), job.me);
    if k == 0 {
      ReceiveFirst(s.rx, s.toRx[0], job, garbage, now);
    } else {
      ReceiveCont(s.rx, s.toRx[0], job, k, garbage, now);
    }
    assert Underway(mid, job, k + 1);
    assert mid.tx.bytesCurrent < mid.tx.bytesTotal;
    NextPacketIsBlock(mid.tx, job.src, job.me, now, k + 1);
  }

  lemma {:induction false} MiddleRounds(s: System, job: Job, m: nat, garbage: nat -> Word, now: int)
    requires 2 * |job.src| < 0x8000_0000 && WellFormed(s) && Waiting(s, job, 0)
    requires m <= UINT8_MAX && BLOCK_WORDS * m < |job.src|
    ensures Waiting(Rounds(s, m, garbage, now, job.me), job, m)
    decreases m
  {
    hide Round, Step, Underway, InFlight;
    if m > 0 {
      MiddleRounds(s, job, m - 1, garbage, now);
      MiddleRound(Rounds(s, m - 1, garbage, now, job.me), job, m - 1, garbage, now);
    }
  }

  lemma LastRound(s: System, job: Job, k: nat, garbage: nat -> Word, now: int)
    requires 2 * |job.src| < 0x8000_0000 && WellFormed(s) && Waiting(s, job, k)
    requires 1 <= k < UINT8_MAX && BLOCK_WORDS * k < |job.src| < BLOCK_WORDS * (k + 1)
    ensures Completed(Round(s, garbage, now, job.me), job)
  {
    hide Receive;
    ReceiveLast(s.rx, s.toRx[0], job, k, garbage, now);
  }

  /** A regular upload completes after as many rounds as it has blocks. */
  lemma RegularCompletes(job: Job, rx: Transfer, garbage: nat -> Word, now: int)
    requires Regular(|job.src|) && Consistent(rx) && Idle(rx)
    ensures Completed(Rounds(Begin(job, rx, true, now), BlockCount(job.src), garbage, now, job.me), job)
    ensures Completes(job, rx, garbage, now)
  {
    hide Begin, Round, Step, Waiting, Completed;
    var last := |job.src| / BLOCK_WORDS;
    BeginWaiting(job, rx, now);
    RegularRounds(Begin(job, rx, true, now), job, last, garbage, now);
    assert BlockCount(job.src) == last + 1;
  }

  lemma RegularRounds(s: System, job: Job, last: nat, garbage: nat -> Word, now: int)
    requires Regular(|job.src|) && WellFormed(s) && Waiting(s, job, 0)
    requires last == |job.src| / BLOCK_WORDS
    ensures Completed(Rounds(s, last + 1, garbage, now, job.me), job)
  {
    MiddleRounds(s, job, last, garbage, now);
    LastRound(Rounds(s, last, garbage, now, job.me), job, last, garbage, now);
  }

  lemma {:induction false} RoundsCompose(s: System, a: nat, b: nat, garbage: nat -> Word, now: int, me: Address)
    requires WellFormed(s)
    ensures Rounds(s, a + b, garbage, now, me) == Rounds(Rounds(s, a, garbage, now, me), b, garbage, now, me)
    decreases b
  {
    hide Round;
    if b > 0 { RoundsCompose(s, a, b - 1, garbage, now, me); }
  }

  lemma {:induction false} SilentForever(s: System, m: nat, garbage: nat -> Word, now: int, me: Address)
    requires WellFormed(s) && Silent(s)
    ensures Rounds(s, m, garbage, now, me) == s
    decreases m
  {
    if m > 0 { SilentForever(s, m - 1, garbage, now, me); }
  }

  // ----- One block

  lemma OneBlockRound(job: Job, rx: Transfer, garbage: nat -> Word, now: int)
    requires |job.src| <= BLOCK_WORDS && Consistent(rx) && Idle(rx)
    ensures
      var r := Round(Begin(job, rx, true, now), garbage, now, job.me);
      Silent(r) && r.rx.peer != 0
  {}

  lemma BusyRounds(s: System, job: Job, m: nat, garbage: nat -> Word, now: int)
    requires WellFormed(s) && s.delivered == []
    requires Silent(Round(s, garbage, now, job.me)) && Round(s, garbage, now, job.me).rx.peer != 0
    ensures !Completed(Rounds(s, m, garbage, now, job.me), job)
  {
    hide Round, Step;
    if m > 0 {
      RoundsCompose(s, 1, m - 1, garbage, now, job.me);
      OneRound(s, garbage, now, job.me);
      SilentForever(Round(s, garbage, now, job.me), m - 1, garbage, now, job.me);
    }
  }

  /** An upload of at most one block never leaves the receiver's slot free. */
  lemma OneBlockNeverCompletes(job: Job, rx: Transfer, garbage: nat -> Word, now: int)
    requires |job.src| <= BLOCK_WORDS && Consistent(rx) && Idle(rx)
    ensures !Completes(job, rx, garbage, now)
  {
    hide Round, Step;
    OneBlockRound(job, rx, garbage, now);
    forall m: nat ensures !Completed(Rounds(Begin(job, rx, true, now), m, garbage, now, job.me), job) {
      BusyRounds(Begin(job, rx, true, now), job, m, garbage, now);
    }
  }

  // ----- Whole blocks only

  ghost predicate NoLast(s: System) {
    && s.delivered == []
    && (forall i :: 0 <= i < |s.toRx| ==>
          IsCont(s.toRx[i].kind) || (IsFirst(s.toRx[i].kind) && ByteLength(s.toRx[i].length) > BLOCK_BYTES))
    && s.tx.bytesTotal % BLOCK_BYTES == 0 && s.tx.bytesCurrent % BLOCK_BYTES == 0
    && (s.tx.bytesTotal > 0 ==> s.tx.bytesCurrent > 0)
  }

  lemma NoLastDelivery(s: System, garbage: nat -> Word, now: int, me: Address)
    requires WellFormed(s) && NoLast(s)
    ensures NoLast(Step(s, DeliverBlock(garbage, now), me))
  {}

  lemma NoLastReply(s: System, now: int, me: Address)
    requires WellFormed(s) && NoLast(s)
    ensures NoLast(Step(s, DeliverReply(true, now), me))
  {
    if s.toTx != [] && s.toTx[0] == BlockGood && s.tx.bytesTotal != s.tx.bytesCurrent {
      assert DataLength(s.tx) == BLOCK_BYTES;
    }
  }

  lemma NoLastRound(s: System, garbage: nat -> Word, now: int, me: Address)
    requires WellFormed(s) && NoLast(s)
    ensures NoLast(Round(s, garbage, now, me))
  {
    NoLastDelivery(s, garbage, now, me);
    NoLastReply(Step(s, DeliverBlock(garbage, now), me), now, me);
  }

  lemma {:induction false} NoLastRounds(s: System, m: nat, garbage: nat -> Word, now: int, me: Address)
    requires WellFormed(s) && NoLast(s)
    ensures NoLast(Rounds(s, m, garbage, now, me))
    decreases m
  {
    if m > 0 {
      NoLastRounds(s, m - 1, garbage, now, me);
      NoLastRound(Rounds(s, m - 1, garbage, now, me), garbage, now, me);
    }
  }

  /** Firmware that fills its last block never gets a LAST packet, so it is never handed over. */
  lemma WholeBlocksNeverComplete(job: Job, rx: Transfer, garbage: nat -> Word, now: int)
    requires 2 * |job.src| < 0x8000_0000 && BLOCK_WORDS < |job.src| && |job.src| % BLOCK_WORDS == 0
    requires Consistent(rx) && Idle(rx)
    ensures !Completes(job, rx, garbage, now)
  {
    var s := Begin(job, rx, true, now);
    WholeBlockBytes(|job.src|);
    assert NoLast(s);
    forall m: nat ensures !Completed(Rounds(s, m, garbage, now, job.me), job) {
      NoLastRounds(s, m, garbage, now, job.me);
    }
  }

  lemma WholeBlockBytes(words: nat)
    requires words % BLOCK_WORDS == 0
    ensures 2 * words % BLOCK_BYTES == 0
  {
    assert 2 * words == BLOCK_BYTES * (words / BLOCK_WORDS);
  }

  // ----- More than 255 blocks

  /** A source whose first word differs from all the others. */
  function Marked(words: nat): seq<Word>
    requires words > 0
  {
    [1] + seq(words - 1, _ => 0)
  }

  /** The receiver has lost the marked word and no packet to come carries it. */
  ghost predicate Tainted(s: System, job: Job) {
    && (forall i :: 0 <= i < |s.delivered| ==>
          s.delivered[i].data == [] || s.delivered[i].data[0] == 0)
    && (s.rx.data == [] || s.rx.data[0] == 0)
    && (forall i :: 0 <= i < |s.toRx| ==> !IsFirst(s.toRx[i].kind) && s.toRx[i].data[0] == 0)
    && (s.tx.bytesTotal > 0 ==> s.tx.data == job.src && s.tx.bytesCurrent >= BLOCK_BYTES)
  }

  lemma TaintedDelivery(s: System, job: Job, garbage: nat -> Word, now: int)
    requires WellFormed(s) && Tainted(s, job)
    ensures Tainted(Step(s, DeliverBlock(garbage, now), job.me), job)
  {
    if s.toRx != [] {
      assert s.toRx[0].data[0] == 0;
    }
  }

  lemma TaintedReply(s: System, job: Job, now: int)
    requires 0 < |job.src| && job.src == Marked(|job.src|)
    requires WellFormed(s) && Tainted(s, job)
    ensures Tainted(Step(s, DeliverReply(true, now), job.me), job)
  {
    if s.toTx != [] && s.tx.bytesTotal > 0 && s.toTx[0] == BlockGood
       && s.tx.bytesTotal != s.tx.bytesCurrent {
      assert NextPacket(s.tx, job.me).data[0] == job.src[s.tx.bytesCurrent / 2];
    }
  }

  lemma TaintedRound(s: System, job: Job, garbage: nat -> Word, now: int)
    requires 0 < |job.src| && job.src == Marked(|job.src|)
    requires WellFormed(s) && Tainted(s, job)
    ensures Tainted(Round(s, garbage, now, job.me), job)
  {
    TaintedDelivery(s, job, garbage, now);
    TaintedReply(Step(s, DeliverBlock(garbage, now), job.me), job, now);
  }

  lemma {:induction false} TaintedRounds(s: System, job: Job, m: nat, garbage: nat -> Word, now: int)
    requires 0 < |job.src| && job.src == Marked(|job.src|)
    requires WellFormed(s) && Tainted(s, job)
    ensures Tainted(Rounds(s, m, garbage, now, job.me), job)
    decreases m
  {
    hide Round, Step, Tainted;
    if m > 0 {
      TaintedRounds(s, job, m - 1, garbage, now);
      TaintedRound(Rounds(s, m - 1, garbage, now, job.me), job, garbage, now);
    }
  }

  /** Block 255 carries id 0: refused if it is the last one, else written over block 0. */
  lemma Round255(s: System, job: Job, garbage: nat -> Word, now: int)
    requires 2 * |job.src| < 0x8000_0000 && BLOCK_WORDS * UINT8_MAX < |job.src|
    requires job.src == Marked(|job.src|)
    requires |job.src| % BLOCK_WORDS != 0
    requires WellFormed(s) && Waiting(s, job, UINT8_MAX)
    ensures
      var r := Round(s, garbage, now, job.me);
      Tainted(r, job) || (Silent(r) && r.delivered == [])
  {
    var mid := Step(s, DeliverBlock(garbage, now), job.me);
    var p := s.toRx[0];
    assert p.blockId == 0;
    assert ByteLength(p.length) == 2 * |job.src|;
    TotalBlocksOf(2 * |job.src|);
    if BLOCK_WORDS * (UINT8_MAX + 1) <= |job.src| {
      assert AcceptsCont(s.rx, p) && WriteSpan(s.rx, p).0 == 0;
      assert p.data[0] == job.src[BLOCK_WORDS * UINT8_MAX] == 0;
      assert Tainted(mid, job);
      TaintedReply(mid, job, now);
    } else {
      assert !AcceptsLast(s.rx, p);
      assert mid.toTx == [Fail] && mid.toRx == [];
    }
  }

  lemma LateRounds(s: System, job: Job, m: nat, garbage: nat -> Word, now: int)
    requires 0 < |job.src| && job.src == Marked(|job.src|) && WellFormed(s)
    requires Tainted(s, job) || (Silent(s) && s.delivered == [])
    ensures !Completed(Rounds(s, m, garbage, now, job.me), job)
  {
    hide Round, Step;
    if Tainted(s, job) {
      TaintedRounds(s, job, m, garbage, now);
      var r := Rounds(s, m, garbage, now, job.me);
      assert |r.delivered| == 1 ==> r.delivered[0] != Complete(job);
    } else {
      SilentForever(s, m, garbage, now, job.me);
    }
  }

  lemma MarkedNeverCompletes(s: System, job: Job, m: nat, garbage: nat -> Word, now: int)
    requires 2 * |job.src| < 0x8000_0000 && BLOCK_WORDS * UINT8_MAX < |job.src|
    requires |job.src| % BLOCK_WORDS != 0
    requires job.src == Marked(|job.src|)
    requires WellFormed(s) && Waiting(s, job, 0)
    ensures !Completed(Rounds(s, m, garbage, now, job.me), job)
  {
    hide Round, Step, Tainted;
    if m <= UINT8_MAX {
      MiddleRounds(s, job, m, garbage, now);
    } else {
      MiddleRounds(s, job, UINT8_MAX, garbage, now);
      var t := Rounds(s, UINT8_MAX, garbage, now, job.me);
      Round255(t, job, garbage, now);
      RoundsCompose(s, UINT8_MAX, m - UINT8_MAX, garbage, now, job.me);
      RoundsCompose(t, 1, m - UINT8_MAX - 1, garbage, now, job.me);
      OneRound(t, garbage, now, job.me);
      LateRounds(Round(t, garbage, now, job.me), job, m - UINT8_MAX - 1, garbage, now);
    }
  }

  lemma OneRound(s: System, garbage: nat -> Word, now: int, me: Address)
    requires WellFormed(s)
    ensures Rounds(s, 1, garbage, now, me) == Round(s, garbage, now, me)
  {
    assert Rounds(s, 0, garbage, now, me) == s;
  }

  /** With more than 255 blocks there is firmware of that length that never gets across. */
  lemma ManyBlocksNeverComplete(job: Job, rx: Transfer, garbage: nat -> Word, now: int)
    requires 2 * |job.src| < 0x8000_0000 && BLOCK_WORDS * UINT8_MAX < |job.src|
    requires |job.src| % BLOCK_WORDS != 0
    requires job.src == Marked(|job.src|)
    requires Consistent(rx) && Idle(rx)
    ensures !Completes(job, rx, garbage, now)
  {
    BeginWaiting(job, rx, now);
    forall m: nat ensures !Completed(Rounds(Begin(job, rx, true, now), m, garbage, now, job.me), job) {
      MarkedNeverCompletes(Begin(job, rx, true, now), job, m, garbage, now);
    }
  }

  /**
   * Every firmware of a given length gets across an undisturbed network if and only if it has
   * more than one block, a short last block, and at most 255 blocks.
   */
  lemma UploadCompletesIff(words: nat, ubea: bool, me: Address, peer: Address, rx: Transfer,
                           garbage: nat -> Word, now: int)
    requires 2 * words < 0x8000_0000 && Consistent(rx) && Idle(rx)
    ensures Regular(words) <==>
            forall src: seq<Word> :: |src| == words ==> Completes(Job(src, ubea, me, peer), rx, garbage, now)
  {
    if Regular(words) {
      forall src: seq<Word> | |src| == words
        ensures Completes(Job(src, ubea, me, peer), rx, garbage, now)
      {
        RegularCompletes(Job(src, ubea, me, peer), rx, garbage, now);
      }
    } else {
      var src := if words == 0 then [] else Marked(words);
      var job := Job(src, ubea, me, peer);
      if words <= BLOCK_WORDS {
        OneBlockNeverCompletes(job, rx, garbage, now);
      } else if words % BLOCK_WORDS == 0 {
        WholeBlocksNeverComplete(job, rx, garbage, now);
      } else {
        ManyBlocksNeverComplete(job, rx, garbage, now);
      }
      assert |src| == words && !Completes(Job(src, ubea, me, peer), rx, garbage, now);
    }
  }
}
