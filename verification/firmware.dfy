/**
 * The firmware transfer of libartnet as a state machine on values: what one ArtFirmwareMaster
 * packet does to a receiver, and what one ArtFirmwareReply does to a sender. Both ends keep the
 * same record, as firmware_transfer_t does in the C code. Firmware is counted in 16-bit words;
 * the byte counters are the code's own.
 */
module Firmware {
  import opened Base

  const BLOCK_WORDS := 512   // ARTNET_FIRMWARE_SIZE
  const BLOCK_BYTES := 1024
  const UINT8_MAX := 255
  const FIRMWARE_TIMEOUT_SECONDS := 20

  // artnet_firmware_type_code
  const FIRM_FIRST: Byte := 0
  const FIRM_CONT: Byte := 1
  const FIRM_LAST: Byte := 2
  const UBEA_FIRST: Byte := 3
  const UBEA_CONT: Byte := 4
  const UBEA_LAST: Byte := 5

  predicate IsFirst(kind: Byte) { kind == FIRM_FIRST || kind == UBEA_FIRST }
  predicate IsCont(kind: Byte) { kind == FIRM_CONT || kind == UBEA_CONT }
  predicate IsLast(kind: Byte) { kind == FIRM_LAST || kind == UBEA_LAST }

  /** The source address of a datagram; 0 is how the code marks a slot with no peer. */
  type Address = a: nat | a != 0 witness 1

  type Payload = s: seq<Word> | |s| == BLOCK_WORDS witness seq(BLOCK_WORDS, _ => 0)

  /** A big-endian 4-byte field. */
  datatype Quad = Quad(b0: Byte, b1: Byte, b2: Byte, b3: Byte)

  type Int32 = v: int | -0x8000_0000 <= v < 0x8000_0000

  /** An ArtFirmwareMaster packet; `length` is the announced word count as the receiver reads it. */
  datatype Packet = Packet(from: Address, kind: Byte, blockId: Byte, length: Int32, data: Payload)

  datatype Reply = BlockGood | AllGood | Fail

  /** What the firmware callback is handed. */
  datatype Delivery = Delivery(ubea: bool, data: seq<Word>, count: int)

  /** The outcome of malloc; the words of a fresh block are whatever the heap held. */
  datatype Memory = Exhausted | Granted(garbage: nat -> Word)

  /** firmware_transfer_t */
  datatype Transfer = Transfer(peer: nat, data: seq<Word>, bytesCurrent: int, bytesTotal: int,
                               expectedBlock: int, ubea: bool, lastTime: int)

  // ----- Announced lengths

  function IntToBytes(v: nat): Quad {
    Quad(v / 0x100_0000 % 0x100, v / 0x1_0000 % 0x100, v / 0x100 % 0x100, v % 0x100)
  }

  function NBytesTo32(q: Quad): Int32 {
    ToInt32(q.b0 * 0x100_0000 + q.b1 * 0x1_0000 + q.b2 * 0x100 + q.b3)
  }

  /** The receiver reads back the word count the sender wrote. */
  lemma LengthRoundTrip(words: nat)
    requires words < 0x8000_0000
    ensures NBytesTo32(IntToBytes(words)) == words
  {
    var q := IntToBytes(words);
    assert words / 0x100 / 0x100 == words / 0x1_0000;
    assert words / 0x1_0000 / 0x100 == words / 0x100_0000;
    assert q.b0 == words / 0x100_0000;
    assert q.b0 * 0x100_0000 + q.b1 * 0x1_0000 + q.b2 * 0x100 + q.b3 == words;
  }

  /** The announced length in bytes; doubling may leave the range of an int. */
  function ByteLength(words: Int32): int {
    ToInt32(2 * words)
  }

  lemma ByteLengthIsEven(words: Int32)
    ensures ByteLength(words) % 2 == 0
  {}

  // ----- Receiver

  function TotalBlocks(length: int): int {
    TruncDiv(TruncDiv(length, BLOCK_WORDS), 2) + 1
  }

  /** The block number a received block id stands for: ids wrap, so a late one is unwrapped. */
  function BlockIndex(expected: int, blockId: Byte): int {
    if expected > UINT8_MAX && expected % (UINT8_MAX + 1) == blockId then expected else blockId
  }

  /** What every slot satisfies between packets. */
  ghost predicate Consistent(t: Transfer) {
    && t.bytesTotal == 2 * |t.data|
    && t.expectedBlock >= 0
    && (t.peer == 0 ==> Idle(t))
  }

  predicate Idle(t: Transfer) {
    t.peer == 0 && t.bytesTotal == 0 && t.bytesCurrent == 0 && t.data == []
  }

  /** The slot left by reset_firmware_upload; expected_block keeps its old value. */
  function Reset(t: Transfer): Transfer {
    Transfer(0, [], 0, 0, t.expectedBlock, false, 0)
  }

  datatype Received = Received(slot: Transfer, reply: Option<Reply>, delivered: Option<Delivery>)

  predicate AcceptsFirst(t: Transfer, p: Packet) {
    IsFirst(p.kind) && t.peer == 0
  }

  predicate AcceptsCont(t: Transfer, p: Packet) {
    && IsCont(p.kind)
    && t.peer == p.from
    && ByteLength(p.length) == t.bytesTotal
    && BlockIndex(t.expectedBlock, p.blockId) < TotalBlocks(ByteLength(p.length)) - 1
  }

  predicate AcceptsLast(t: Transfer, p: Packet) {
    && IsLast(p.kind)
    && t.peer == p.from
    && ByteLength(p.length) == t.bytesTotal
    && BlockIndex(t.expectedBlock, p.blockId) == TotalBlocks(ByteLength(p.length)) - 1
  }

  /** The words an accepted block writes, as (first word, number of words). */
  function WriteSpan(t: Transfer, p: Packet): (nat, nat)
    requires Consistent(t)
  {
    if IsFirst(p.kind) then (0, Min(Max(ByteLength(p.length), 0), BLOCK_BYTES) / 2)
    else
      var offset := BlockIndex(t.expectedBlock, p.blockId) * BLOCK_WORDS;
      if IsCont(p.kind) then (offset, BLOCK_WORDS)
      else (offset, t.bytesTotal % BLOCK_BYTES / 2)
  }

  lemma TotalBlocksOf(length: nat)
    ensures TotalBlocks(length) == length / BLOCK_BYTES + 1
  {}

  /**
   * No accepted block is written outside the buffer, whatever its id and announced length, and
   * an accepted LAST block ends exactly where the firmware does.
   */
  lemma AcceptedBlockInBounds(t: Transfer, p: Packet)
    requires Consistent(t)
    ensures AcceptsCont(t, p) ==> WriteSpan(t, p).0 + WriteSpan(t, p).1 <= |t.data|
    ensures AcceptsLast(t, p) ==> 2 * (WriteSpan(t, p).0 + WriteSpan(t, p).1) == t.bytesTotal
  {
    TotalBlocksOf(t.bytesTotal);
  }

  /** handle_firmware */
  function Receive(t: Transfer, p: Packet, mem: Memory, now: int): (r: Received)
    requires Consistent(t)
  {
    AcceptedBlockInBounds(t, p);
    var length := ByteLength(p.length);
    if IsFirst(p.kind) then
      if t.peer != 0 then Received(t, Some(Fail), None)
      else if length < 0 || mem.Exhausted? then
        // malloc failed: the peer is already recorded and nothing is sent back
        Received(t.(peer := p.from, data := []), None, None)
      else
        var blockLength := Min(length, BLOCK_BYTES);
        var block: seq<Word> := seq<Word>(length / 2, mem.garbage);
        var data: seq<Word> := Splice(block, 0, p.data[..blockLength / 2]);
        var slot := Transfer(p.from, data, blockLength, length, 1, p.kind == UBEA_FIRST, now);
        if blockLength == length then
          Received(slot, Some(AllGood), Some(Delivery(slot.ubea, data, length)))
        else Received(slot, Some(BlockGood), None)
    else if AcceptsCont(t, p) then
      var data := Splice(t.data, WriteSpan(t, p).0, p.data);
      Received(t.(data := data, bytesCurrent := t.bytesCurrent + BLOCK_BYTES,
                  expectedBlock := t.expectedBlock + 1),
               Some(BlockGood), None)
    else if AcceptsLast(t, p) then
      var data := Splice(t.data, WriteSpan(t, p).0, p.data[..WriteSpan(t, p).1]);
      Received(Reset(t), Some(AllGood), Some(Delivery(t.ubea, data, t.bytesTotal / 2)))
    else Received(t, Some(Fail), None)
  }

  /**
   * The application is told the length of what it gets in words, except by a FIRST packet that
   * is the whole upload: that one tells it in bytes.
   */
  lemma CountIsInWordsIff(t: Transfer, p: Packet, mem: Memory, now: int)
    requires Consistent(t) && Receive(t, p, mem, now).delivered.Some?
    ensures
      var d := Receive(t, p, mem, now).delivered.value;
      && (d.count == |d.data| <==> !IsFirst(p.kind) || d.data == [])
      && (IsFirst(p.kind) ==> d.count == 2 * |d.data|)
  {
    AcceptedBlockInBounds(t, p);
    ByteLengthIsEven(p.length);
  }

  /**
   * A block id is taken for the expected block exactly if it is that block's low byte; any other id
   * is taken as it is.
   */
  lemma BlockIndexIs(expected: nat, blockId: Byte)
    ensures BlockIndex(expected, blockId) == if blockId == expected % 256 then expected else blockId
  {}

  /**
   * Which packets are refused, whatever the state: a FIRST while the slot is taken, a block from
   * anyone but the peer, with another length or out of place. A refused packet changes nothing.
   */
  lemma RefusesIff(t: Transfer, p: Packet, mem: Memory, now: int)
    requires Consistent(t)
    ensures
      var r := Receive(t, p, mem, now);
      var block := if p.blockId == t.expectedBlock % 256 then t.expectedBlock else p.blockId;
      var ours := t.peer == p.from && ToInt32(2 * p.length) == t.bytesTotal;
      && (r.reply == Some(Fail) <==>
            || (IsFirst(p.kind) && t.peer != 0)
            || (IsCont(p.kind) && !(ours && block < t.bytesTotal / 1024))
            || (IsLast(p.kind) && !(ours && block == t.bytesTotal / 1024))
            || !(IsFirst(p.kind) || IsCont(p.kind) || IsLast(p.kind)))
      && (r.reply == Some(Fail) ==> r.slot == t && r.delivered == None)
  {
    BlockIndexIs(t.expectedBlock, p.blockId);
    TotalBlocksOf(t.bytesTotal);
    hide BlockIndex, TotalBlocks;
  }

  /** Nothing is sent back exactly when there is no memory for a new transfer; the slot is taken all the same. */
  lemma SilentIff(t: Transfer, p: Packet, mem: Memory, now: int)
    requires Consistent(t)
    ensures
      var r := Receive(t, p, mem, now);
      && (r.reply == None <==> IsFirst(p.kind) && t.peer == 0 && (ToInt32(2 * p.length) < 0 || mem.Exhausted?))
      && (r.reply == None ==> r.delivered == None && r.slot == t.(peer := p.from))
  {}

  /** check_timeouts, called before every packet is read */
  function Expire(t: Transfer, now: int): Transfer {
    if t.peer != 0 && now - t.lastTime >= FIRMWARE_TIMEOUT_SECONDS then Reset(t) else t
  }

  // ----- Receiver: any traffic

  datatype Traffic = Traffic(packet: Packet, mem: Memory, now: int)

  function Blank(): Transfer { Transfer(0, [], 0, 0, 0, false, 0) }

  /** A node's upload slot after the given packets, the newest last. */
  function Serve(history: seq<Traffic>): (t: Transfer)
    ensures Consistent(t)
    decreases |history|
  {
    if history == [] then Blank()
    else
      var t := Expire(Serve(history[..|history| - 1]), history[|history| - 1].now);
      var e := history[|history| - 1];
      ReceiveKeepsConsistent(t, e.packet, e.mem, e.now);
      Receive(t, e.packet, e.mem, e.now).slot
  }

  lemma ReceiveKeepsConsistent(t: Transfer, p: Packet, mem: Memory, now: int)
    requires Consistent(t)
    ensures Consistent(Receive(t, p, mem, now).slot)
  {
    AcceptedBlockInBounds(t, p);
    ByteLengthIsEven(p.length);
  }

  /** After any traffic from any senders, the next packet is still written inside the buffer. */
  lemma EveryWriteInBounds(history: seq<Traffic>, e: Traffic)
    ensures
      var t := Expire(Serve(history), e.now);
      var r := Receive(t, e.packet, e.mem, e.now);
      var (start, count) := WriteSpan(t, e.packet);
      && (AcceptsFirst(t, e.packet) && r.reply.Some? ==> start + count <= |r.slot.data|)
      && (AcceptsCont(t, e.packet) ==> start + count <= |t.data| == |r.slot.data|)
      && (AcceptsLast(t, e.packet) ==> 2 * (start + count) == t.bytesTotal == 2 * |t.data|)
      && (!AcceptsFirst(t, e.packet) && !AcceptsCont(t, e.packet) && !AcceptsLast(t, e.packet)
          ==> r == Received(t, Some(Fail), None))
  {
    var t := Expire(Serve(history), e.now);
    AcceptedBlockInBounds(t, e.packet);
  }

  // ----- Receiver: timeouts

  /** The slot after more packets, checked for a timeout before each of them. */
  function ServeOn(t: Transfer, es: seq<Traffic>): (r: Transfer)
    requires Consistent(t)
    ensures Consistent(r)
    decreases |es|
  {
    if es == [] then t
    else
      var u := Expire(t, es[0].now);
      ReceiveKeepsConsistent(u, es[0].packet, es[0].mem, es[0].now);
      ServeOn(Receive(u, es[0].packet, es[0].mem, es[0].now).slot, es[1..])
  }

  /** A slot that has timed out can be taken at once; one that has not is left alone. */
  lemma TimesOutIff(t: Transfer, now: int)
    requires Consistent(t)
    ensures t.peer != 0 && now - t.lastTime >= FIRMWARE_TIMEOUT_SECONDS ==> Idle(Expire(t, now))
    ensures t.peer == 0 || now - t.lastTime < FIRMWARE_TIMEOUT_SECONDS ==> Expire(t, now) == t
  {}

  /** Only the FIRST packet sets the clock. */
  lemma ClockStartsWithFirst(t: Transfer, p: Packet, mem: Memory, now: int)
    requires Consistent(t)
    ensures
      var r := Receive(t, p, mem, now).slot;
      && (t.peer != 0 && r.peer != 0 ==> r.lastTime == t.lastTime && r.peer == t.peer)
      && (t.peer == 0 && r.peer != 0 && Receive(t, p, mem, now).reply.Some? ==> r.lastTime == now && r.peer == p.from)
  {}

  /**
   * Further blocks do not keep a transfer alive: whatever CONT packets arrive from whomever, it is
   * still there afterwards if and only if all of them came before the timeout after its FIRST.
   */
  lemma {:induction false} TransferSurvivesIff(t: Transfer, es: seq<Traffic>)
    requires Consistent(t) && t.peer != 0
    requires forall i :: 0 <= i < |es| ==> IsCont(es[i].packet.kind)
    ensures ServeOn(t, es).peer == t.peer <==> AllBefore(es, t.lastTime + FIRMWARE_TIMEOUT_SECONDS)
    ensures ServeOn(t, es).peer == 0 <==> !AllBefore(es, t.lastTime + FIRMWARE_TIMEOUT_SECONDS)
    decreases |es|
  {
    if es != [] {
      var u := Expire(t, es[0].now);
      var r := Receive(u, es[0].packet, es[0].mem, es[0].now).slot;
      ReceiveKeepsConsistent(u, es[0].packet, es[0].mem, es[0].now);
      TimesOutIff(t, es[0].now);
      ClockStartsWithFirst(u, es[0].packet, es[0].mem, es[0].now);
      AllBeforeSplit(es, t.lastTime + FIRMWARE_TIMEOUT_SECONDS);
      if es[0].now - t.lastTime < FIRMWARE_TIMEOUT_SECONDS {
        assert r.peer == t.peer && r.lastTime == t.lastTime;
        TransferSurvivesIff(r, es[1..]);
      } else {
        assert r.peer == 0;
        StaysIdle(r, es[1..]);
      }
    }
  }

  ghost predicate AllBefore(es: seq<Traffic>, deadline: int) {
    forall i :: 0 <= i < |es| ==> es[i].now < deadline
  }

  lemma AllBeforeSplit(es: seq<Traffic>, deadline: int)
    requires es != []
    ensures AllBefore(es, deadline) <==> es[0].now < deadline && AllBefore(es[1..], deadline)
  {
    assert es == [es[0]] + es[1..];
  }

  lemma {:induction false} StaysIdle(t: Transfer, es: seq<Traffic>)
    requires Consistent(t) && t.peer == 0
    requires forall i :: 0 <= i < |es| ==> IsCont(es[i].packet.kind)
    ensures ServeOn(t, es).peer == 0
    decreases |es|
  {
    if es != [] {
      var r := Receive(t, es[0].packet, es[0].mem, es[0].now).slot;
      ReceiveKeepsConsistent(t, es[0].packet, es[0].mem, es[0].now);
      StaysIdle(r, es[1..]);
    }
  }

  // ----- Sender

  /** What artnet_send_firmware stores for a peer before it sends the first block. */
  function Start(peer: Address, src: seq<Word>, ubea: bool, previous: Transfer): Transfer {
    Transfer(peer, src, 0, 2 * |src|, 0, ubea, previous.lastTime)
  }

  ghost predicate Sending(t: Transfer) {
    && t.bytesTotal == 2 * |t.data| < 0x8000_0000
    && 0 <= t.bytesCurrent <= t.bytesTotal
    && t.bytesCurrent % 2 == 0
    && 0 <= t.expectedBlock < UINT8_MAX
  }

  function DataLength(t: Transfer): int {
    Min(t.bytesTotal - t.bytesCurrent, BLOCK_BYTES)
  }

  function KindOf(t: Transfer): Byte {
    if t.bytesCurrent == 0 then if t.ubea then UBEA_FIRST else FIRM_FIRST
    else if DataLength(t) == BLOCK_BYTES then if t.ubea then UBEA_CONT else FIRM_CONT
    else if t.ubea then UBEA_LAST else FIRM_LAST
  }

  function Pad(words: seq<Word>): Payload
    requires |words| <= BLOCK_WORDS
  {
    words + seq(BLOCK_WORDS - |words|, _ => 0)
  }

  /** The packet artnet_tx_firmware_packet builds. */
  function NextPacket(t: Transfer, me: Address): Packet
    requires Sending(t)
  {
    var start := t.bytesCurrent / 2;
    Packet(me, KindOf(t), t.expectedBlock, t.bytesTotal / 2,
           Pad(t.data[start..start + DataLength(t) / 2]))
  }

  /** The sender's record once that packet has left. */
  function Advance(t: Transfer, now: int): (r: Transfer)
    requires Sending(t)
    ensures Sending(r)
    ensures t.bytesCurrent < t.bytesTotal ==> r.bytesCurrent > t.bytesCurrent
  {
    t.(bytesCurrent := t.bytesCurrent + DataLength(t),
       lastTime := now,
       expectedBlock := (t.expectedBlock + 1) % UINT8_MAX)
  }

  datatype Answered = Answered(slot: Transfer, packet: Option<Packet>, notified: Option<Reply>)

  /** handle_firmware_reply; `sent` says whether the network took the next packet. */
  function HandleReply(t: Transfer, reply: Reply, me: Address, sent: bool, now: int): Answered
    requires Sending(t)
  {
    if t.bytesTotal == 0 then Answered(t, None, None)
    else match reply
      case AllGood =>
        if t.bytesTotal == t.bytesCurrent then Answered(Blank(), None, Some(AllGood))
        else Answered(t, None, None)
      case Fail => Answered(Blank(), None, Some(Fail))
      case BlockGood =>
        if t.bytesTotal != t.bytesCurrent && sent then
          Answered(Advance(t, now), Some(NextPacket(t, me)), None)
        else Answered(t, None, None)
  }

  /**
   * While a transfer is under way the application is told ALLGOOD exactly when the peer says so
   * and everything has been sent, and FAIL exactly when the peer says so. Whatever it is told, the
   * transfer is over; a packet leaves only for a BLOCKGOOD; any other reply changes nothing.
   */
  lemma ReplyMeans(t: Transfer, reply: Reply, me: Address, sent: bool, now: int)
    requires Sending(t) && t.bytesTotal > 0
    ensures
      var a := HandleReply(t, reply, me, sent, now);
      && (a.notified == Some(AllGood) <==> reply == AllGood && t.bytesCurrent == t.bytesTotal)
      && (a.notified == Some(Fail) <==> reply == Fail)
      && a.notified != Some(BlockGood)
      && (a.notified.Some? ==> a.slot == Transfer(0, [], 0, 0, 0, false, 0))
      && (a.packet.Some? <==> reply == BlockGood && t.bytesCurrent < t.bytesTotal && sent)
      && (a.packet.None? && a.notified.None? ==> a.slot == t)
  {}

  /** A FIRST packet that is the whole upload hands over exactly the words it carries. */
  lemma OneBlockDelivers(t: Transfer, p: Packet, garbage: nat -> Word, now: int)
    requires Consistent(t) && t.peer == 0 && IsFirst(p.kind) && 0 <= ByteLength(p.length) <= BLOCK_BYTES
    ensures
      var r := Receive(t, p, Granted(garbage), now);
      r.reply == Some(AllGood)
      && r.delivered == Some(Delivery(p.kind == UBEA_FIRST, p.data[..ByteLength(p.length) / 2], ByteLength(p.length)))
  {
    ByteLengthIsEven(p.length);
    var r := Receive(t, p, Granted(garbage), now);
    assert r.delivered.value.data == p.data[..ByteLength(p.length) / 2];
  }

  // ----- Packetisation

  /** Every packet a transfer still has to send, in order. */
  function Packets(t: Transfer, me: Address, now: int): (ps: seq<Packet>)
    requires Sending(t)
    decreases t.bytesTotal - t.bytesCurrent
  {
    if t.bytesCurrent >= t.bytesTotal then []
    else [NextPacket(t, me)] + Packets(Advance(t, now), me, now)
  }

  function CeilDiv(a: nat, b: nat): nat
    requires b > 0
  {
    (a + b - 1) / b
  }

  /** The source words the k-th block carries. */
  function Block(src: seq<Word>, k: nat): seq<Word>
    requires BLOCK_WORDS * k <= |src|
  {
    src[BLOCK_WORDS * k..Min(BLOCK_WORDS * (k + 1), |src|)]
  }

  /** The firmware words of a packet that announces `total` bytes and is the k-th of its upload. */
  function Carried(p: Packet, total: nat, k: nat): seq<Word>
    requires BLOCK_BYTES * k <= total
  {
    p.data[..Min(total - BLOCK_BYTES * k, BLOCK_BYTES) / 2]
  }

  function Payloads(ps: seq<Packet>, total: nat, k: nat): seq<Word>
    requires |ps| > 0 ==> BLOCK_BYTES * (k + |ps| - 1) <= total
    decreases |ps|
  {
    if ps == [] then [] else Carried(ps[0], total, k) + Payloads(ps[1..], total, k + 1)
  }

  /** A sender that has cut off the first k blocks of src. */
  ghost predicate HasSent(t: Transfer, src: seq<Word>, k: nat) {
    && t.data == src
    && t.bytesTotal == 2 * |src| < 0x8000_0000
    && t.bytesCurrent == Min(BLOCK_BYTES * k, t.bytesTotal)
    && BLOCK_BYTES * (k - 1) < t.bytesTotal
    && t.expectedBlock == k % UINT8_MAX
  }

  /** The shape of the k-th packet of an upload of src. */
  ghost predicate IsBlock(p: Packet, src: seq<Word>, ubea: bool, k: nat) {
    && BLOCK_WORDS * k < |src|
    && p.blockId == k % UINT8_MAX
    && p.length == |src|
    && p.data == Pad(Block(src, k))
    && p.kind == (if k == 0 then if ubea then UBEA_FIRST else FIRM_FIRST
                  else if BLOCK_WORDS * (k + 1) <= |src| then if ubea then UBEA_CONT else FIRM_CONT
                  else if ubea then UBEA_LAST else FIRM_LAST)
  }

  lemma NextPayload(t: Transfer, src: seq<Word>, k: nat)
    requires HasSent(t, src, k) && t.bytesCurrent < t.bytesTotal
    ensures t.bytesCurrent == BLOCK_BYTES * k && BLOCK_WORDS * k < |src|
    ensures t.bytesCurrent / 2 + DataLength(t) / 2 == Min(BLOCK_WORDS * (k + 1), |src|)
    ensures t.data[t.bytesCurrent / 2..t.bytesCurrent / 2 + DataLength(t) / 2] == Block(src, k)
  {}

  lemma NextPacketIsBlock(t: Transfer, src: seq<Word>, me: Address, now: int, k: nat)
    requires HasSent(t, src, k) && t.bytesCurrent < t.bytesTotal
    ensures Sending(t)
    ensures IsBlock(NextPacket(t, me), src, t.ubea, k)
    ensures HasSent(Advance(t, now), src, k + 1)
  {
    NextPayload(t, src, k);
    AdvanceHasSent(t, src, now, k);
  }

  lemma AdvanceHasSent(t: Transfer, src: seq<Word>, now: int, k: nat)
    requires HasSent(t, src, k) && t.bytesCurrent < t.bytesTotal
    ensures Sending(t)
    ensures HasSent(Advance(t, now), src, k + 1)
  {}

  /** ps are the blocks of src from the k-th on. */
  ghost predicate AreBlocks(ps: seq<Packet>, src: seq<Word>, ubea: bool, k: nat) {
    && k + |ps| == CeilDiv(2 * |src|, BLOCK_BYTES)
    && forall j :: 0 <= j < |ps| ==> IsBlock(ps[j], src, ubea, k + j)
  }

  lemma {:induction false} RemainingBlocks(t: Transfer, src: seq<Word>, me: Address, now: int, k: nat)
    requires Sending(t) && HasSent(t, src, k)
    ensures AreBlocks(Packets(t, me, now), src, t.ubea, k)
    decreases t.bytesTotal - t.bytesCurrent
  {
    if t.bytesCurrent < t.bytesTotal {
      NextPacketIsBlock(t, src, me, now, k);
      RemainingBlocks(Advance(t, now), src, me, now, k + 1);
      ConsBlocks(NextPacket(t, me), Packets(Advance(t, now), me, now), src, t.ubea, k);
    }
  }

  lemma ConsBlocks(p: Packet, rest: seq<Packet>, src: seq<Word>, ubea: bool, k: nat)
    requires IsBlock(p, src, ubea, k) && AreBlocks(rest, src, ubea, k + 1)
    ensures AreBlocks([p] + rest, src, ubea, k)
  {
    forall j | 0 <= j < |[p] + rest| ensures IsBlock(([p] + rest)[j], src, ubea, k + j) {
      if j > 0 { assert IsBlock(rest[j - 1], src, ubea, k + 1 + (j - 1)); }
    }
  }

  /** Blocks joined up in order give back the source from the first of them on. */
  lemma {:induction false} BlocksRejoin(ps: seq<Packet>, src: seq<Word>, ubea: bool, k: nat)
    requires AreBlocks(ps, src, ubea, k)
    ensures |ps| > 0 ==> BLOCK_BYTES * (k + |ps| - 1) <= 2 * |src|
    ensures Payloads(ps, 2 * |src|, k) == src[Min(BLOCK_WORDS * k, |src|)..]
    decreases |ps|
  {
    if ps != [] {
      LaterBlocks(ps, src, ubea, k);
      BlocksRejoin(ps[1..], src, ubea, k + 1);
      FirstBlock(ps[0], src, ubea, k);
    }
  }

  lemma LaterBlocks(ps: seq<Packet>, src: seq<Word>, ubea: bool, k: nat)
    requires AreBlocks(ps, src, ubea, k) && ps != []
    ensures IsBlock(ps[0], src, ubea, k) && AreBlocks(ps[1..], src, ubea, k + 1)
  {
    assert IsBlock(ps[0], src, ubea, k + 0);
    forall j | 0 <= j < |ps[1..]| ensures IsBlock(ps[1..][j], src, ubea, k + 1 + j) {
      assert IsBlock(ps[j + 1], src, ubea, k + (j + 1));
    }
  }

  lemma FirstBlock(p: Packet, src: seq<Word>, ubea: bool, k: nat)
    requires IsBlock(p, src, ubea, k)
    ensures Carried(p, 2 * |src|, k) == Block(src, k)
    ensures Block(src, k) + src[Min(BLOCK_WORDS * (k + 1), |src|)..] == src[BLOCK_WORDS * k..]
  {}

  /**
   * Packetisation: an upload of src takes ceil(bytes / 1024) packets, the k-th of them is the
   * k-th block in every field, and their payloads join up to exactly src.
   */
  lemma Packetisation(t: Transfer, peer: Address, src: seq<Word>, ubea: bool, me: Address, now: int)
    requires 0 < 2 * |src| < 0x8000_0000
    requires t == Start(peer, src, ubea, Blank())
    ensures |Packets(t, me, now)| == CeilDiv(2 * |src|, BLOCK_BYTES)
    ensures forall k :: 0 <= k < |Packets(t, me, now)| ==> IsBlock(Packets(t, me, now)[k], src, ubea, k)
    ensures Payloads(Packets(t, me, now), 2 * |src|, 0) == src
  {
    RemainingBlocks(t, src, me, now, 0);
    BlocksRejoin(Packets(t, me, now), src, ubea, 0);
    var ps := Packets(t, me, now);
    forall k | 0 <= k < |ps| ensures IsBlock(ps[k], src, ubea, k) {
      assert IsBlock(ps[k], src, ubea, 0 + k);
    }
  }
}
