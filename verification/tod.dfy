/** The RDM table of devices of a port: a growable array of UIDs, sent 200 to a packet. */
module TableOfDevices {
  import opened Base

  const UID_WIDTH := 6          // ARTNET_RDM_UID_WIDTH
  const INITIAL_SIZE := 100     // ARTNET_TOD_INITIAL_SIZE
  const INCREMENT := 50         // ARTNET_TOD_INCREMENT
  const MAX_UID_COUNT := 200    // ARTNET_MAX_UID_COUNT
  const AREA := 1200            // bytes of the UID area of a packet

  type Uid = s: seq<Byte> | |s| == UID_WIDTH witness [0, 0, 0, 0, 0, 0]

  function Flatten(uids: seq<Uid>): (r: seq<Byte>)
    ensures |r| == UID_WIDTH * |uids|
    decreases |uids|
  {
    if uids == [] then [] else Flatten(uids[..|uids| - 1]) + uids[|uids| - 1]
  }

  lemma SubSlice<T>(s: seq<T>, n: nat, a: nat, b: nat)
    requires a <= b <= n <= |s|
    ensures s[..n][a..b] == s[a..b]
  {}

  lemma DropAppend<T>(s: seq<T>, t: seq<T>, k: nat)
    requires k <= |s|
    ensures (s + t)[k..] == s[k..] + t
  {}

  lemma {:induction false} FlattenSlice(uids: seq<Uid>, from: nat, to: nat)
    requires from <= to <= |uids|
    ensures Flatten(uids)[UID_WIDTH * from..UID_WIDTH * to] == Flatten(uids[from..to])
    decreases |uids|
  {
    if from < to {
      var front, last := uids[..|uids| - 1], uids[|uids| - 1];
      var whole := Flatten(uids);
      assert whole == Flatten(front) + last;
      if to < |uids| {
        FlattenSlice(front, from, to);
        SubSlice(uids, |uids| - 1, from, to);
        SubSlice(whole, |Flatten(front)|, UID_WIDTH * from, UID_WIDTH * to);
        assert whole[..|Flatten(front)|] == Flatten(front);
      } else {
        FlattenSlice(front, from, to - 1);
        SubSlice(uids, |uids| - 1, from, to - 1);
        assert uids[from..to] == front[from..to - 1] + [last];
        assert uids[from..to][..to - from - 1] == front[from..to - 1];
        DropAppend(Flatten(front), last, UID_WIDTH * from);
      }
    }
  }

  /** The bytes of the UIDs, one UID after the other and each in its own order. */
  lemma {:induction false} FlattenAt(uids: seq<Uid>, i: nat, j: nat)
    requires i < |uids| && j < UID_WIDTH
    ensures UID_WIDTH * i + j < |Flatten(uids)| && Flatten(uids)[UID_WIDTH * i + j] == uids[i][j]
    decreases |uids|
  {
    if i < |uids| - 1 {
      FlattenAt(uids[..|uids| - 1], i, j);
    }
  }

  /** An ArtTodData packet. */
  datatype TodPacket = TodPacket(port: Byte, address: Byte, uidTotalHi: Byte, uidTotal: Byte,
                                 blockCount: Byte, uidCount: Byte, tod: seq<Byte>)

  /** The UID area of a packet that has just been zeroed. */
  function Cleared(): seq<Byte> { seq(AREA, _ => 0) }

  /** The UID area after memset of its first 200 bytes and memcpy of the next slice. */
  function Refill(area: seq<Byte>, slice: seq<Byte>): (r: seq<Byte>)
    requires |area| == AREA && |slice| <= AREA
    ensures |r| == AREA
  {
    slice + (seq(MAX_UID_COUNT, _ => 0) + area[MAX_UID_COUNT..])[|slice|..]
  }

  function CountIn(n: nat, k: nat): nat
    requires MAX_UID_COUNT * k <= n
  {
    Min(MAX_UID_COUNT, n - MAX_UID_COUNT * k)
  }

  /** The UIDs of block k. */
  function Block(uids: seq<Uid>, k: nat): seq<Uid>
    requires MAX_UID_COUNT * k <= |uids|
  {
    uids[MAX_UID_COUNT * k..MAX_UID_COUNT * k + CountIn(|uids|, k)]
  }

  function BlockPacket(uids: seq<Uid>, port: Byte, address: Byte, k: nat, area: seq<Byte>): TodPacket
    requires |area| == AREA && MAX_UID_COUNT * k <= |uids|
  {
    TodPacket(port, address, |uids| / 0x100 % 0x100, |uids| % 0x100, k % 0x100, CountIn(|uids|, k),
              Refill(area, Flatten(Block(uids, k))))
  }

  /** The packets for a table from block k on, when the UID area still holds `area`. */
  function Packets(uids: seq<Uid>, port: Byte, address: Byte, k: nat, area: seq<Byte>): (ps: seq<TodPacket>)
    requires |area| == AREA
    decreases |uids| - MAX_UID_COUNT * k
  {
    if |uids| <= MAX_UID_COUNT * k then []
    else
      var p := BlockPacket(uids, port, address, k, area);
      [p] + Packets(uids, port, address, k + 1, p.tod)
  }

  lemma PacketsUnfold(uids: seq<Uid>, port: Byte, address: Byte, k: nat, area: seq<Byte>)
    requires |area| == AREA
    ensures |uids| <= MAX_UID_COUNT * k ==> Packets(uids, port, address, k, area) == []
    ensures MAX_UID_COUNT * k < |uids| ==>
              var p := BlockPacket(uids, port, address, k, area);
              Packets(uids, port, address, k, area) == [p] + Packets(uids, port, address, k + 1, p.tod)
  {}

  /** The UIDs a receiver takes from a packet. */
  function Carried(p: TodPacket): seq<Byte> {
    p.tod[..Min(UID_WIDTH * p.uidCount, |p.tod|)]
  }

  function Joined(ps: seq<TodPacket>): seq<Byte> {
    if ps == [] then [] else Carried(ps[0]) + Joined(ps[1..])
  }

  /** A packet that carries block k of the table, whatever lies in its UID area behind it. */
  ghost predicate IsBlock(p: TodPacket, uids: seq<Uid>, port: Byte, address: Byte, k: nat) {
    && MAX_UID_COUNT * k < |uids|
    && p.port == port && p.address == address
    && p.blockCount == k % 0x100
    && p.uidCount == CountIn(|uids|, k)
    && 0x100 * p.uidTotalHi + p.uidTotal == |uids| % 0x1_0000
    && |p.tod| == AREA && Carried(p) == Flatten(Block(uids, k))
  }

  function BlockCount(n: nat): nat { (n + MAX_UID_COUNT - 1) / MAX_UID_COUNT }

  ghost predicate AreBlocks(ps: seq<TodPacket>, uids: seq<Uid>, port: Byte, address: Byte, k: nat) {
    && k + |ps| == Max(k, BlockCount(|uids|))
    && forall i :: 0 <= i < |ps| ==> IsBlock(ps[i], uids, port, address, k + i)
  }

  lemma BlockPacketIsBlock(uids: seq<Uid>, port: Byte, address: Byte, k: nat, area: seq<Byte>)
    requires |area| == AREA && MAX_UID_COUNT * k < |uids|
    ensures IsBlock(BlockPacket(uids, port, address, k, area), uids, port, address, k)
  {
    assert |uids| / 0x100 / 0x100 == |uids| / 0x1_0000;
  }

  lemma ConsBlocks(p: TodPacket, rest: seq<TodPacket>, uids: seq<Uid>, port: Byte, address: Byte, k: nat)
    requires IsBlock(p, uids, port, address, k) && AreBlocks(rest, uids, port, address, k + 1)
    ensures AreBlocks([p] + rest, uids, port, address, k)
  {
    assert k + 1 <= BlockCount(|uids|);
    hide IsBlock;
    var ps := [p] + rest;
    forall i | 0 <= i < |ps| ensures IsBlock(ps[i], uids, port, address, k + i) {
      if i > 0 { assert IsBlock(rest[i - 1], uids, port, address, k + 1 + (i - 1)); }
    }
  }

  lemma {:induction false} PacketsAreBlocks(uids: seq<Uid>, port: Byte, address: Byte, k: nat, area: seq<Byte>)
    requires |area| == AREA
    ensures AreBlocks(Packets(uids, port, address, k, area), uids, port, address, k)
    decreases |uids| - MAX_UID_COUNT * k
  {
    if MAX_UID_COUNT * k < |uids| {
      hide AreBlocks, IsBlock;
      var p := BlockPacket(uids, port, address, k, area);
      BlockPacketIsBlock(uids, port, address, k, area);
      PacketsAreBlocks(uids, port, address, k + 1, p.tod);
      ConsBlocks(p, Packets(uids, port, address, k + 1, p.tod), uids, port, address, k);
      assert AreBlocks(Packets(uids, port, address, k, area), uids, port, address, k);
    }
  }

  lemma {:induction false} BlocksJoin(ps: seq<TodPacket>, uids: seq<Uid>, port: Byte, address: Byte, k: nat)
    requires AreBlocks(ps, uids, port, address, k) && MAX_UID_COUNT * k < |uids| + MAX_UID_COUNT
    ensures Joined(ps) == Flatten(uids[Min(MAX_UID_COUNT * k, |uids|)..])
    decreases |ps|
  {
    if ps != [] {
      assert IsBlock(ps[0], uids, port, address, k + 0);
      forall i | 0 <= i < |ps[1..]| ensures IsBlock(ps[1..][i], uids, port, address, k + 1 + i) {
        assert IsBlock(ps[i + 1], uids, port, address, k + (i + 1));
      }
      BlocksJoin(ps[1..], uids, port, address, k + 1);
      SplitBlock(uids, k);
    }
  }

  lemma SplitBlock(uids: seq<Uid>, k: nat)
    requires MAX_UID_COUNT * k < |uids|
    ensures Flatten(uids[MAX_UID_COUNT * k..])
            == Flatten(Block(uids, k)) + Flatten(uids[Min(MAX_UID_COUNT * (k + 1), |uids|)..])
  {
    var tail, count := uids[MAX_UID_COUNT * k..], CountIn(|uids|, k);
    FlattenSlice(tail, 0, count);
    FlattenSlice(tail, count, |tail|);
    assert tail[0..count] == Block(uids, k);
    assert tail[count..|tail|] == uids[Min(MAX_UID_COUNT * (k + 1), |uids|)..];
  }

  /**
   * A table goes out in ceil(n / 200) packets. Packet k is block k of the table in every field,
   * all but the last carry 200 UIDs, and what they carry joins up to the table in order.
   */
  lemma TransmissionIsComplete(uids: seq<Uid>, port: Byte, address: Byte, area: seq<Byte>)
    requires |area| == AREA
    ensures
      var ps := Packets(uids, port, address, 0, area);
      && |ps| == BlockCount(|uids|)
      && (forall k :: 0 <= k < |ps| ==> IsBlock(ps[k], uids, port, address, k))
      && (forall k :: 0 <= k < |ps| - 1 ==> ps[k].uidCount == MAX_UID_COUNT)
      && Joined(ps) == Flatten(uids)
  {
    PacketsAreBlocks(uids, port, address, 0, area);
    BlocksJoin(Packets(uids, port, address, 0, area), uids, port, address, 0);
    var ps := Packets(uids, port, address, 0, area);
    forall k | 0 <= k < |ps| ensures IsBlock(ps[k], uids, port, address, k) {
      assert IsBlock(ps[k], uids, port, address, 0 + k);
    }
    assert uids[0..] == uids;
  }

  // ----- What lies behind the UIDs in a packet

  /** Each packet is filled over the area of the one before. */
  lemma {:induction false} PacketAt(uids: seq<Uid>, port: Byte, address: Byte, k: nat, area: seq<Byte>, j: nat)
    requires |area| == AREA && j < |Packets(uids, port, address, k, area)|
    ensures
      var ps := Packets(uids, port, address, k, area);
      && MAX_UID_COUNT * (k + j) < |uids|
      && |if j == 0 then area else ps[j - 1].tod| == AREA
      && ps[j] == BlockPacket(uids, port, address, k + j, if j == 0 then area else ps[j - 1].tod)
    decreases j
  {
    hide BlockPacket;
    PacketsUnfold(uids, port, address, k, area);
    var p := BlockPacket(uids, port, address, k, area);
    BlockPacketArea(uids, port, address, k, area);
    if j > 0 {
      PacketAt(uids, port, address, k + 1, p.tod, j - 1);
    }
  }

  lemma BlockPacketArea(uids: seq<Uid>, port: Byte, address: Byte, k: nat, area: seq<Byte>)
    requires |area| == AREA && MAX_UID_COUNT * k <= |uids|
    ensures BlockPacket(uids, port, address, k, area).tod == Refill(area, Flatten(Block(uids, k)))
  {}

  lemma RefillAt(area: seq<Byte>, slice: seq<Byte>)
    requires |area| == AREA && |slice| <= AREA
    ensures forall i :: 0 <= i < AREA ==>
              Refill(area, slice)[i]
              == if i < |slice| then slice[i] else if i < MAX_UID_COUNT then 0 else area[i]
    ensures |slice| == AREA ==> Refill(area, slice) == slice
  {}

  /**
   * Behind its UIDs a packet is zero up to byte 200; from there on it still has the bytes of the
   * table that the packet before carried at the same place.
   */
  lemma AreaOf(uids: seq<Uid>, port: Byte, address: Byte, k: nat)
    requires k < |Packets(uids, port, address, 0, Cleared())|
    ensures
      var p := Packets(uids, port, address, 0, Cleared())[k];
      && MAX_UID_COUNT * k < |uids| && |p.tod| == AREA
      && forall i :: UID_WIDTH * CountIn(|uids|, k) <= i < AREA ==>
           p.tod[i] == if i < MAX_UID_COUNT || k == 0 then 0 else Flatten(Block(uids, k - 1))[i]
  {
    hide BlockPacket, Packets, Flatten, Refill;
    var ps := Packets(uids, port, address, 0, Cleared());
    PacketAt(uids, port, address, 0, Cleared(), k);
    var area := if k == 0 then Cleared() else ps[k - 1].tod;
    BlockPacketArea(uids, port, address, k, area);
    RefillAt(area, Flatten(Block(uids, k)));
    if k > 0 {
      PacketAt(uids, port, address, 0, Cleared(), k - 1);
      var before := if k == 1 then Cleared() else ps[k - 2].tod;
      BlockPacketArea(uids, port, address, k - 1, before);
      RefillAt(before, Flatten(Block(uids, k - 1)));
    }
  }

  /** All of the packet's UID area behind the UIDs it carries is zero. */
  ghost predicate CleanTail(p: TodPacket) { ZeroFrom(p.tod, UID_WIDTH * p.uidCount) }

  ghost predicate ZeroFrom(s: seq<Byte>, start: int) {
    forall i :: 0 <= i < |s| && start <= i ==> s[i] == 0
  }

  /**
   * The tail of a packet is clean if and only if it is the first packet, it is full, or the block
   * before ends in zero bytes over the part of the area that is neither cleared nor overwritten.
   */
  lemma TailIsCleanIff(uids: seq<Uid>, port: Byte, address: Byte, k: nat)
    requires k < |Packets(uids, port, address, 0, Cleared())|
    ensures MAX_UID_COUNT * k < |uids|
    ensures
      CleanTail(Packets(uids, port, address, 0, Cleared())[k]) <==>
        || k == 0 || CountIn(|uids|, k) == MAX_UID_COUNT
        || ZeroFrom(Flatten(Block(uids, k - 1)), Max(MAX_UID_COUNT, UID_WIDTH * CountIn(|uids|, k)))
  {
    AreaOf(uids, port, address, k);
    PacketAt(uids, port, address, 0, Cleared(), k);
    var p := Packets(uids, port, address, 0, Cleared())[k];
    assert p.uidCount == CountIn(|uids|, k) && |p.tod| == AREA;
    hide Packets, Flatten, BlockPacket;
    if k > 0 {
      var before, w := Flatten(Block(uids, k - 1)), UID_WIDTH * CountIn(|uids|, k);
      assert |before| == AREA;
      assert forall i :: w <= i < AREA ==> p.tod[i] == if i < MAX_UID_COUNT then 0 else before[i];
      assert w < AREA ==> (ZeroFrom(p.tod, w) <==> ZeroFrom(before, Max(MAX_UID_COUNT, w)));
    }
  }

  /**
   * When no UID ends in a zero byte, the last packet's tail is clean if and only if that packet is
   * the only one or is full.
   */
  lemma RealUidsTailIff(uids: seq<Uid>, port: Byte, address: Byte)
    requires uids != [] && forall i :: 0 <= i < |uids| ==> uids[i][UID_WIDTH - 1] != 0
    ensures
      var ps := Packets(uids, port, address, 0, Cleared());
      |ps| > 0 && (CleanTail(ps[|ps| - 1]) <==> |uids| <= MAX_UID_COUNT || |uids| % MAX_UID_COUNT == 0)
  {
    PacketsAreBlocks(uids, port, address, 0, Cleared());
    var ps := Packets(uids, port, address, 0, Cleared());
    hide Packets, Flatten;
    var k := |ps| - 1;
    TailIsCleanIff(uids, port, address, k);
    LastCount(|uids|, k);
    if k > 0 {
      var block := Block(uids, k - 1);
      LastByte(block);
      assert block[MAX_UID_COUNT - 1] == uids[MAX_UID_COUNT * (k - 1) + MAX_UID_COUNT - 1];
    }
  }

  lemma LastCount(n: nat, k: nat)
    requires n > 0 && k + 1 == BlockCount(n)
    ensures MAX_UID_COUNT * k < n && (k == 0 <==> n <= MAX_UID_COUNT)
    ensures CountIn(n, k) == MAX_UID_COUNT <==> n % MAX_UID_COUNT == 0
  {}

  lemma LastByte(block: seq<Uid>)
    requires |block| == MAX_UID_COUNT
    ensures Flatten(block)[AREA - 1] == block[MAX_UID_COUNT - 1][UID_WIDTH - 1]
  {}

  // ----- In place

  ghost predicate AllTaken(sendOk: nat -> bool, n: nat) {
    forall k :: 0 <= k < n ==> sendOk(k)
  }

  /** How many of the first n packets are handed to the network: none after a refused one. */
  ghost function Attempts(sendOk: nat -> bool, n: nat): (m: nat)
    ensures m <= n
    ensures AllTaken(sendOk, n) ==> m == n
  {
    if n == 0 then 0 else if AllTaken(sendOk, n - 1) then n else Attempts(sendOk, n - 1)
  }

  /** The first n packets are attempted up to and including the first that is refused. */
  lemma {:induction false} AttemptsAre(sendOk: nat -> bool, n: nat)
    ensures forall k :: 0 <= k < Attempts(sendOk, n) - 1 ==> sendOk(k)
    ensures Attempts(sendOk, n) < n ==> Attempts(sendOk, n) > 0 && !sendOk(Attempts(sendOk, n) - 1)
    ensures !AllTaken(sendOk, n) ==> Attempts(sendOk, n) > 0 && !sendOk(Attempts(sendOk, n) - 1)
    decreases n
  {
    if n > 0 && !AllTaken(sendOk, n - 1) {
      AttemptsAre(sendOk, n - 1);
    }
  }

  lemma TakenIff(sendOk: nat -> bool, n: nat)
    ensures AllTaken(sendOk, n) <==> forall k :: 0 <= k < n ==> sendOk(k)
  {}

  lemma SentUpToRefusal<T>(all: seq<T>, sendOk: nat -> bool, ret: int, sent: seq<T>)
    requires sent == all[..Attempts(sendOk, |all|)] && ret == if AllTaken(sendOk, |all|) then ARTNET_EOK else 1
    ensures sent <= all && forall k :: 0 <= k < |sent| - 1 ==> sendOk(k)
    ensures |sent| < |all| ==> |sent| > 0 && !sendOk(|sent| - 1)
    ensures ret == ARTNET_EOK <==> forall k :: 0 <= k < |all| ==> sendOk(k)
  {
    AttemptsAre(sendOk, |all|);
    TakenIff(sendOk, |all|);
  }

  lemma AttemptsStep(sendOk: nat -> bool, n: nat)
    ensures AllTaken(sendOk, n + 1) <==> AllTaken(sendOk, n) && sendOk(n)
    ensures Attempts(sendOk, n + 1) == if AllTaken(sendOk, n) then n + 1 else Attempts(sendOk, n)
    ensures AllTaken(sendOk, 0) && Attempts(sendOk, 0) == 0
  {}

  lemma TailStep<T>(all: seq<T>, k: nat, p: T, rest: seq<T>)
    requires k <= |all| && all[k..] == [p] + rest
    ensures k < |all| && all[k] == p && all[k + 1..] == rest && all[..k + 1] == all[..k] + [p]
  {
    assert all[k] == all[k..][0];
    assert all[k + 1..] == all[k..][1..];
  }

  /** Before packet k: what is still to come, what has been handed over, and the result so far. */
  ghost predicate Sending(all: seq<TodPacket>, uids: seq<Uid>, port: Byte, address: Byte, sendOk: nat -> bool,
                          k: nat, area: seq<Byte>, ret: int, sent: seq<TodPacket>)
  {
    && |area| == AREA && k <= |all| && all[k..] == Packets(uids, port, address, k, area)
    && sent == all[..Attempts(sendOk, k)]
    && ret == if AllTaken(sendOk, k) then ARTNET_EOK else 1
  }

  lemma SendingStep(all: seq<TodPacket>, uids: seq<Uid>, port: Byte, address: Byte, sendOk: nat -> bool,
                    k: nat, area: seq<Byte>, ret: int, sent: seq<TodPacket>)
    requires Sending(all, uids, port, address, sendOk, k, area, ret, sent) && MAX_UID_COUNT * k < |uids|
    ensures
      var p := BlockPacket(uids, port, address, k, area);
      Sending(all, uids, port, address, sendOk, k + 1, p.tod,
              if ret == ARTNET_EOK && !sendOk(k) then 1 else ret,
              if ret == ARTNET_EOK then sent + [p] else sent)
  {
    var p := BlockPacket(uids, port, address, k, area);
    hide BlockPacket;
    PacketsUnfold(uids, port, address, k, area);
    TailStep(all, k, p, Packets(uids, port, address, k + 1, p.tod));
    AttemptsStep(sendOk, k);
    hide AllTaken, Attempts, Packets;
  }

  /** How many UIDs the packets from number bloc on have to carry. */
  ghost predicate Left(length: nat, bloc: nat, remaining: int) {
    && remaining <= length
    && if remaining > 0 then MAX_UID_COUNT * bloc + remaining == length
       else remaining == 0 && length <= MAX_UID_COUNT * bloc
  }

  lemma LeftSteps(length: nat, bloc: nat, remaining: int)
    ensures Left(length, 0, length)
    ensures Left(length, bloc, 0) ==> length <= MAX_UID_COUNT * bloc
    ensures Left(length, bloc, remaining) && remaining > 0 ==>
              Left(length, bloc + 1, remaining - Min(MAX_UID_COUNT, remaining))
  {}

  lemma SendingStarts(uids: seq<Uid>, port: Byte, address: Byte, sendOk: nat -> bool, area: seq<Byte>)
    requires |area| == AREA
    ensures Sending(Packets(uids, port, address, 0, area), uids, port, address, sendOk, 0, area, ARTNET_EOK, [])
  {
    AttemptsStep(sendOk, 0);
  }

  lemma SendingEnds(all: seq<TodPacket>, uids: seq<Uid>, port: Byte, address: Byte, sendOk: nat -> bool,
                    k: nat, area: seq<Byte>, ret: int, sent: seq<TodPacket>)
    requires Sending(all, uids, port, address, sendOk, k, area, ret, sent) && |uids| <= MAX_UID_COUNT * k
    ensures sent == all[..Attempts(sendOk, |all|)] && ret == if AllTaken(sendOk, |all|) then ARTNET_EOK else 1
  {
    PacketsUnfold(uids, port, address, k, area);
  }

  class Table {
    var data: array?<Byte>
    var length: nat
    var maxLength: nat
    ghost var uids: seq<Uid>

    /** The capacity is 100 and then grows by 50; the cells in use hold the UIDs in order. */
    ghost predicate Valid()
      reads this, data
    {
      && length == |uids|
      && (data == null <==> maxLength == 0)
      && (data == null ==> length == 0)
      && (data != null ==>
            && maxLength >= INITIAL_SIZE && (maxLength - INITIAL_SIZE) % INCREMENT == 0
            && 1 <= length <= maxLength && data.Length == UID_WIDTH * maxLength
            && data[..UID_WIDTH * length] == Flatten(uids))
    }

    /** reset_tod */
    constructor ()
      ensures Valid() && uids == []
    {
      data, length, maxLength, uids := null, 0, 0, [];
    }

    /** flush_tod */
    method Flush()
      modifies this
      ensures Valid() && uids == []
    {
      data, length, maxLength, uids := null, 0, 0, [];
    }

    /**
     * add_tod_uid; memoryOk says whether malloc or realloc finds room. When realloc does not, the
     * table loses its data but keeps its length.
     */
    method Add(uid: Uid, memoryOk: bool) returns (ret: int)
      requires Valid()
      modifies this, data
      ensures ret == if memoryOk || old(length) < old(maxLength) then 0 else ARTNET_EMEM
      ensures ret == ARTNET_EMEM ==>
                && data == null && length == old(length) && maxLength == old(maxLength) && uids == old(uids)
                && (Valid() <==> old(length) == 0)
      ensures ret == 0 ==> Valid() && (data == old(data) || fresh(data))
      ensures ret == 0 ==> uids == old(uids) + [uid]
      ensures ret == 0 ==>
                maxLength == if old(length) < old(maxLength) then old(maxLength)
                             else if old(maxLength) == 0 then INITIAL_SIZE else old(maxLength) + INCREMENT
    {
      if data == null {
        if !memoryOk {
          return ARTNET_EMEM;
        }
        data := new Byte[UID_WIDTH * INITIAL_SIZE];
        length := 1;
        maxLength := INITIAL_SIZE;
      } else if length == maxLength {
        if !memoryOk {
          data := null;
          return ARTNET_EMEM;
        }
        var size := maxLength + INCREMENT;
        data := Enlarged(data, UID_WIDTH * size);
        maxLength := size;
        length := length + 1;
      } else {
        length := length + 1;
      }
      assert data[..(length - 1) * UID_WIDTH] == Flatten(uids);
      WriteAt(data, (length - 1) * UID_WIDTH, uid);
      uids := uids + [uid];
      assert uids[..|uids| - 1] == old(uids);
      return 0;
    }

    /** realloc */
    static method Enlarged(from: array<Byte>, size: nat) returns (bigger: array<Byte>)
      requires from.Length <= size
      ensures fresh(bigger) && bigger.Length == size && bigger[..from.Length] == from[..]
    {
      bigger := new Byte[size];
      forall i | 0 <= i < from.Length {
        bigger[i] := from[i];
      }
    }

    static method WriteAt(into: array<Byte>, at: nat, uid: Uid)
      requires at + UID_WIDTH <= into.Length
      modifies into
      ensures into[..at + UID_WIDTH] == old(into[..at]) + uid
    {
      forall i | 0 <= i < UID_WIDTH {
        into[at + i] := uid[i];
      }
    }

    lemma StoredSlice(first: nat, count: nat)
      requires Valid() && first + count <= length
      ensures data != null ==> data[UID_WIDTH * first..UID_WIDTH * (first + count)] == Flatten(uids[first..first + count])
    {
      if data != null {
        FlattenSlice(uids, first, first + count);
        var all := data[..];
        assert all[..UID_WIDTH * length] == data[..UID_WIDTH * length];
        SubSlice(all, UID_WIDTH * length, UID_WIDTH * first, UID_WIDTH * (first + count));
        assert all[UID_WIDTH * first..UID_WIDTH * (first + count)] == data[UID_WIDTH * first..UID_WIDTH * (first + count)];
      }
    }

    /** Clears the first 200 bytes of the packet's UID area and copies the next UIDs over it. */
    method FillArea(area: array<Byte>, first: nat, count: nat)
      requires Valid() && area != data && area.Length == AREA
      requires first + count <= length && count <= MAX_UID_COUNT
      modifies area
      ensures area[..] == Refill(old(area[..]), Flatten(uids[first..first + count]))
    {
      StoredSlice(first, count);
      ghost var slice := Flatten(uids[first..first + count]);
      hide Flatten;
      forall i | 0 <= i < MAX_UID_COUNT {
        area[i] := 0;
      }
      if data != null {
        forall i | 0 <= i < UID_WIDTH * count {
          area[i] := data[UID_WIDTH * first + i];
        }
        assert forall i :: 0 <= i < UID_WIDTH * count ==>
                 area[i] == data[UID_WIDTH * first..UID_WIDTH * (first + count)][i];
      }
      assert forall i :: 0 <= i < |slice| ==> area[i] == slice[i];
    }

    /** The part of the loop of artnet_tx_tod_data that fills in a packet. */
    method NextPacket(area: array<Byte>, port: Byte, address: Byte, bloc: nat, remaining: nat) returns (p: TodPacket)
      requires Valid() && area != data && area.Length == AREA
      requires 0 < remaining && MAX_UID_COUNT * bloc + remaining == length
      modifies area
      ensures p == BlockPacket(uids, port, address, bloc, old(area[..]))
      ensures area[..] == p.tod
    {
      hide Flatten, Refill;
      var limit := Min(MAX_UID_COUNT, remaining);
      FillArea(area, length - remaining, limit);
      p := TodPacket(port, address, length / 0x100 % 0x100, length % 0x100, bloc % 0x100, limit, area[..]);
    }

    /** The loop body of artnet_tx_tod_data. */
    method SendNext(ghost all: seq<TodPacket>, area: array<Byte>, port: Byte, address: Byte, sendOk: nat -> bool,
                    bloc: nat, remaining: nat, ret0: int, sent0: seq<TodPacket>)
      returns (ret: int, sent: seq<TodPacket>)
      requires Valid() && area != data && area.Length == AREA
      requires 0 < remaining && Left(length, bloc, remaining)
      requires Sending(all, uids, port, address, sendOk, bloc, area[..], ret0, sent0)
      modifies area
      ensures Sending(all, uids, port, address, sendOk, bloc + 1, area[..], ret, sent)
    {
      SendingStep(all, uids, port, address, sendOk, bloc, area[..], ret0, sent0);
      hide Sending, BlockPacket;
      ret, sent := ret0, sent0;
      var p := NextPacket(area, port, address, bloc, remaining);
      if ret == ARTNET_EOK {
        sent := sent + [p];
        ret := if sendOk(bloc) then ARTNET_EOK else 1;
      }
    }

    /**
     * artnet_tx_tod_data. sendOk(k) says whether the network takes packet k; once it has refused
     * one, the short-circuit in the code keeps the later ones from being sent at all.
     */
    method TxTodData(port: Byte, address: Byte, sendOk: nat -> bool)
      returns (ret: int, sent: seq<TodPacket>)
      requires Valid()
      ensures
        var all := Packets(uids, port, address, 0, Cleared());
        && sent == all[..Attempts(sendOk, |all|)]
        && ret == if AllTaken(sendOk, |all|) then ARTNET_EOK else 1
      ensures
        var all := Packets(uids, port, address, 0, Cleared());
        && sent <= all
        && (forall k :: 0 <= k < |sent| - 1 ==> sendOk(k))
        && (|sent| < |all| ==> |sent| > 0 && !sendOk(|sent| - 1))
        && (ret == ARTNET_EOK <==> forall k :: 0 <= k < |all| ==> sendOk(k))
    {
      ret, sent := ARTNET_EOK, [];
      var area := new Byte[AREA](_ => 0);
      var remaining := length;
      var bloc := 0;
      ghost var all := Packets(uids, port, address, 0, Cleared());
      assert area[..] == Cleared();
      SendingStarts(uids, port, address, sendOk, Cleared());
      assert length == |uids|;
      hide Packets, BlockPacket, AllTaken, Attempts, Cleared, Sending, Left;
      LeftSteps(length, bloc, remaining);
      while remaining > 0
        invariant 0 <= remaining && Left(length, bloc, remaining)
        invariant Sending(all, uids, port, address, sendOk, bloc, area[..], ret, sent)
      {
        ret, sent := SendNext(all, area, port, address, sendOk, bloc, remaining, ret, sent);
        var limit := Min(MAX_UID_COUNT, remaining);
        LeftSteps(length, bloc, remaining);
        remaining := remaining - limit;
        bloc := bloc + 1;
      }
      LeftSteps(length, bloc, remaining);
      SendingEnds(all, uids, port, address, sendOk, bloc, area[..], ret, sent);
      SentUpToRefusal(all, sendOk, ret, sent);
    }
  }
}
