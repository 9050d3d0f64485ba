/** firmware_transfer_t as the handlers of receive.c and transmit.c update it, in place. */
module FirmwareSlots {
  import opened Base
  import opened Firmware

  class FirmwareSlot {
    var peer: nat
    var data: array<Word>
    var bytesCurrent: int
    var bytesTotal: int
    var expectedBlock: int
    var ubea: bool
    var lastTime: int

    ghost function Value(): Transfer
      reads this, data
    {
      Transfer(peer, data[..], bytesCurrent, bytesTotal, expectedBlock, ubea, lastTime)
    }

    constructor ()
      ensures Value() == Blank()
      ensures fresh(data)
    {
      peer, bytesCurrent, bytesTotal, expectedBlock, ubea, lastTime := 0, 0, 0, 0, false, 0;
      data := new Word[0];
    }

    /** reset_firmware_upload */
    method ResetFirmwareUpload()
      modifies this
      ensures Value() == Reset(old(Value()))
      ensures fresh(data)
    {
      bytesCurrent := 0;
      bytesTotal := 0;
      peer := 0;
      ubea := false;
      lastTime := 0;
      data := new Word[0];
    }

    /** check_timeouts; `failed` says whether the node's report code becomes ARTNET_RCFIRMWAREFAIL. */
    method CheckTimeouts(now: int) returns (failed: bool)
      modifies this
      ensures Value() == Expire(old(Value()), now)
      ensures data == old(data) || fresh(data)
      ensures failed <==> old(peer) != 0 && now - old(lastTime) >= FIRMWARE_TIMEOUT_SECONDS
    {
      failed := false;
      if peer != 0 && now - lastTime >= FIRMWARE_TIMEOUT_SECONDS {
        ResetFirmwareUpload();
        failed := true;
      }
    }

    /** Copies the first `count` words of a packet to the buffer, from word `offset` on. */
    method CopyIn(offset: nat, block: Payload, count: nat)
      requires count <= BLOCK_WORDS && offset + count <= data.Length
      modifies data
      ensures data[..] == Splice(old(data[..]), offset, block[..count])
    {
      forall i | 0 <= i < count {
        data[offset + i] := block[i];
      }
    }

    /** handle_firmware */
    method HandleFirmware(p: Packet, mem: Memory, now: int)
      returns (reply: Option<Reply>, delivered: Option<Delivery>)
      requires Consistent(Value())
      modifies this, data
      ensures Consistent(Value())
      ensures Received(Value(), reply, delivered) == Receive(old(Value()), p, mem, now)
      ensures data == old(data) || fresh(data)
    {
      ReceiveKeepsConsistent(Value(), p, mem, now);
      AcceptedBlockInBounds(Value(), p);
      reply, delivered := Some(Fail), None;
      var length := ByteLength(p.length);
      if IsFirst(p.kind) {
        if peer == 0 {
          reply := HandleFirst(p, length, mem, now);
          if reply == Some(AllGood) {
            delivered := Some(Delivery(ubea, data[..], bytesTotal));
          }
        }
      } else if IsCont(p.kind) {
        var blockId := UnwrapBlockId(p.blockId);
        if peer == p.from && length == bytesTotal && blockId < TotalBlocks(length) - 1 {
          CopyIn(blockId * BLOCK_WORDS, p.data, BLOCK_WORDS);
          bytesCurrent := bytesCurrent + BLOCK_BYTES;
          expectedBlock := expectedBlock + 1;
          reply := Some(BlockGood);
          assert p.data[..BLOCK_WORDS] == p.data;
        }
      } else if IsLast(p.kind) {
        var blockLength := bytesTotal % BLOCK_BYTES;
        var blockId := UnwrapBlockId(p.blockId);
        if peer == p.from && length == bytesTotal && blockId == TotalBlocks(length) - 1 {
          CopyIn(blockId * BLOCK_WORDS, p.data, blockLength / 2);
          delivered := Some(Delivery(ubea, data[..], bytesTotal / 2));
          ResetFirmwareUpload();
          reply := Some(AllGood);
        }
      }
    }

    method UnwrapBlockId(received: Byte) returns (blockId: int)
      ensures blockId == BlockIndex(expectedBlock, received)
    {
      blockId := received;
      if expectedBlock > UINT8_MAX && expectedBlock % (UINT8_MAX + 1) == received {
        blockId := expectedBlock;
      }
    }

    /** The new-transfer branch of handle_firmware. */
    method HandleFirst(p: Packet, length: int, mem: Memory, now: int) returns (reply: Option<Reply>)
      requires Consistent(Value())
      requires IsFirst(p.kind) && peer == 0 && length == ByteLength(p.length)
      modifies this
      ensures Value() == Receive(old(Value()), p, mem, now).slot
      ensures reply == Receive(old(Value()), p, mem, now).reply
      ensures fresh(data)
    {
      peer := p.from;
      if length < 0 || mem.Exhausted? {
        data := new Word[0];
        return None;
      }
      var garbage := mem.garbage;
      var contents := seq<Word>(length / 2, garbage);
      data := new Word[|contents|](i requires 0 <= i < |contents| => contents[i]);
      assert data[..] == contents;
      bytesTotal := length;
      lastTime := now;
      expectedBlock := 1;
      ubea := p.kind == UBEA_FIRST;
      var blockLength := Min(length, BLOCK_BYTES);
      CopyIn(0, p.data, blockLength / 2);
      bytesCurrent := blockLength;
      reply := if blockLength == length then Some(AllGood) else Some(BlockGood);
    }

    /** artnet_send_firmware up to the first packet: src is the caller's firmware. */
    method StartTransfer(to: Address, src: array<Word>, isUbea: bool, mallocOk: bool) returns (ret: int)
      modifies this
      ensures ret == if mallocOk then ARTNET_EOK else ARTNET_EMEM
      ensures mallocOk ==> Value() == Start(to, src[..], isUbea, old(Value()))
      ensures mallocOk ==> peer == to && ubea == isUbea && data[..] == src[..] && bytesCurrent == 0
      ensures !mallocOk ==> Value() == old(Value()).(data := [])
      ensures fresh(data)
    {
      if !mallocOk {
        data := new Word[0];
        return ARTNET_EMEM;
      }
      data := new Word[src.Length](i requires 0 <= i < src.Length reads src => src[i]);
      assert data[..] == src[..];
      bytesCurrent := 0;
      bytesTotal := 2 * src.Length;
      peer := to;
      ubea := isUbea;
      expectedBlock := 0;
      return ARTNET_EOK;
    }

    /** artnet_tx_firmware_packet; `ret` is what the network made of the packet. */
    method TxFirmwarePacket(me: Address, ret: int, now: int) returns (p: Packet)
      requires Sending(Value())
      modifies this
      ensures data == old(data)
      ensures p == NextPacket(old(Value()), me)
      ensures Value() == if ret == ARTNET_EOK then Advance(old(Value()), now) else old(Value())
    {
      var dataLength := Min(bytesTotal - bytesCurrent, BLOCK_BYTES);
      var kind: Byte;
      if bytesCurrent == 0 {
        kind := if ubea then UBEA_FIRST else FIRM_FIRST;
      } else if dataLength == BLOCK_BYTES {
        kind := if ubea then UBEA_CONT else FIRM_CONT;
      } else {
        kind := if ubea then UBEA_LAST else FIRM_LAST;
      }
      var start := bytesCurrent / 2;
      LengthRoundTrip(bytesTotal / 2);
      p := Packet(me, kind, expectedBlock, NBytesTo32(IntToBytes(bytesTotal / 2)),
                  Pad(data[start..start + dataLength / 2]));
      if ret == ARTNET_EOK {
        bytesCurrent := bytesCurrent + dataLength;
        lastTime := now;
        expectedBlock := expectedBlock + 1;
        expectedBlock := expectedBlock % UINT8_MAX;
      }
    }

    /** handle_firmware_reply, for the entry of the node the reply came from. */
    method HandleFirmwareReply(reply: Reply, me: Address, ret: int, now: int)
      returns (packet: Option<Packet>, notified: Option<Reply>)
      requires Sending(Value())
      modifies this
      ensures Answered(Value(), packet, notified)
              == HandleReply(old(Value()), reply, me, ret == ARTNET_EOK, now)
    {
      packet, notified := None, None;
      if bytesTotal == 0 {
        return;
      }
      match reply {
        case AllGood =>
          if bytesTotal == bytesCurrent {
            notified := Some(AllGood);
            Clear();
          }
        case Fail =>
          notified := Some(Fail);
          Clear();
        case BlockGood =>
          if bytesTotal != bytesCurrent {
            var p := TxFirmwarePacket(me, ret, now);
            packet := if ret == ARTNET_EOK then Some(p) else None;
          }
      }
    }

    /** memset of the record to zero */
    method Clear()
      modifies this
      ensures Value() == Blank()
      ensures fresh(data)
    {
      peer, bytesCurrent, bytesTotal, expectedBlock, ubea, lastTime := 0, 0, 0, 0, false, 0;
      data := new Word[0];
    }
  }
}
