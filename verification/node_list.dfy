/** The linked list of discovered nodes, kept by ArtPollReply packets. */
module NodeLists {
  import opened Base

  /** The fields of an ArtPollReply packet. */
  datatype PollReply = PollReply(
    ip: seq<Byte>, port: Word, verH: Byte, ver: Byte, subH: Byte, sub: Byte, oemH: Byte, oem: Byte,
    ubea: Byte, status: Byte, etsaman: seq<Byte>, shortname: seq<Byte>, longname: seq<Byte>,
    nodereport: seq<Byte>, numbportsH: Byte, numbports: Byte, porttypes: seq<Byte>,
    goodinput: seq<Byte>, goodoutput: seq<Byte>, swin: seq<Byte>, swout: seq<Byte>,
    swvideo: Byte, swmacro: Byte, swremote: Byte, style: Byte, mac: seq<Byte>)

  /** artnet_node_entry_t: what a list entry shows to the application */
  datatype NodeInfo = NodeInfo(
    ip: seq<Byte>, ver: Word, sub: Word, oem: Word, ubea: Byte, etsaman: seq<Byte>,
    shortname: seq<Byte>, longname: seq<Byte>, nodereport: seq<Byte>, numbports: Word,
    porttypes: seq<Byte>, goodinput: seq<Byte>, goodoutput: seq<Byte>, swin: seq<Byte>,
    swout: seq<Byte>, swvideo: Byte, swmacro: Byte, swremote: Byte, style: Byte, mac: seq<Byte>)

  function BytesToShort(high: Byte, low: Byte): Word { high * 0x100 + low }

  /** copy_apr_to_node_entry */
  function CopyReply(r: PollReply): NodeInfo {
    NodeInfo(r.ip, BytesToShort(r.verH, r.ver), BytesToShort(r.subH, r.sub), BytesToShort(r.oemH, r.oem),
             r.ubea, r.etsaman, r.shortname, r.longname, r.nodereport,
             BytesToShort(r.numbportsH, r.numbports), r.porttypes, r.goodinput, r.goodoutput,
             r.swin, r.swout, r.swvideo, r.swmacro, r.swremote, r.style, r.mac)
  }

  /** A reply with the address it was sent from; the address inside it is not trusted. */
  datatype Heard = Heard(from: nat, reply: PollReply)

  datatype Listed = Listed(ip: nat, info: NodeInfo)

  // ----- The list as a sequence

  /** The position of an address, or the length of the list. */
  function Find(list: seq<Listed>, ip: nat): (i: nat)
    ensures i <= |list|
    ensures i < |list| ==> list[i].ip == ip
    ensures forall j :: 0 <= j < i ==> list[j].ip != ip
  {
    if list == [] || list[0].ip == ip then 0 else 1 + Find(list[1..], ip)
  }

  function Updated(list: seq<Listed>, h: Heard): seq<Listed> {
    var i := Find(list, h.from);
    var entry := Listed(h.from, CopyReply(h.reply));
    if i < |list| then list[i := entry] else list + [entry]
  }

  /** The list after a run of replies, the newest last. */
  function Discovered(history: seq<Heard>): seq<Listed> {
    if history == [] then []
    else Updated(Discovered(history[..|history| - 1]), history[|history| - 1])
  }

  // ----- What it is meant to be

  /** The index of the first reply from an address, or the length of the history. */
  function FirstHeard(history: seq<Heard>, ip: nat): (k: nat)
    ensures k <= |history| && (k < |history| ==> history[k].from == ip)
    ensures forall j :: 0 <= j < k ==> history[j].from != ip
    decreases |history|
  {
    if history == [] then 0
    else
      var k := FirstHeard(history[..|history| - 1], ip);
      if k < |history| - 1 || history[|history| - 1].from == ip then k else k + 1
  }

  /** The index of the latest reply from an address, or -1. */
  function LastHeard(history: seq<Heard>, ip: nat): (k: int)
    ensures -1 <= k < |history| && (k >= 0 ==> history[k].from == ip)
    ensures forall j :: k < j < |history| ==> history[j].from != ip
    decreases |history|
  {
    if history == [] then -1
    else if history[|history| - 1].from == ip then |history| - 1
    else LastHeard(history[..|history| - 1], ip)
  }

  /**
   * Exactly the addresses heard from, once each and in the order in which they were first heard,
   * each with the fields of its latest reply.
   */
  ghost predicate IsDirectory(list: seq<Listed>, history: seq<Heard>) {
    ListsAll(list, history) && ListsLatest(list, history) && ListsInOrder(list, history)
  }

  ghost predicate ListsAll(list: seq<Listed>, history: seq<Heard>) {
    forall k :: 0 <= k < |history| ==> Find(list, history[k].from) < |list|
  }

  ghost predicate ListsLatest(list: seq<Listed>, history: seq<Heard>) {
    forall i :: 0 <= i < |list| ==>
      var k := LastHeard(history, list[i].ip);
      k >= 0 && list[i].info == CopyReply(history[k].reply)
  }

  ghost predicate ListsInOrder(list: seq<Listed>, history: seq<Heard>) {
    forall i, j :: 0 <= i < j < |list| ==>
      FirstHeard(history, list[i].ip) < FirstHeard(history, list[j].ip)
  }

  lemma UpdatedPositions(list: seq<Listed>, h: Heard)
    ensures |list| <= |Updated(list, h)| <= |list| + 1
    ensures |Updated(list, h)| == |list| + 1 <==> forall i :: 0 <= i < |list| ==> list[i].ip != h.from
    ensures |Updated(list, h)| == |list| + 1 ==> Updated(list, h)[|list|].ip == h.from
    ensures forall i :: 0 <= i < |list| ==> Updated(list, h)[i].ip == list[i].ip
    ensures forall i :: 0 <= i < |list| && list[i].ip != h.from ==> Updated(list, h)[i] == list[i]
    ensures exists i :: 0 <= i < |Updated(list, h)| && Updated(list, h)[i].ip == h.from
  {
    var i := Find(list, h.from);
    assert Updated(list, h)[i].ip == h.from;
  }

  lemma UpdateListsAll(list: seq<Listed>, history: seq<Heard>, h: Heard)
    requires ListsAll(list, history)
    ensures ListsAll(Updated(list, h), history + [h])
  {
    UpdatedPositions(list, h);
    hide Updated, CopyReply;
    var next, longer := Updated(list, h), history + [h];
    forall k | 0 <= k < |longer| ensures Find(next, longer[k].from) < |next| {
      if k < |history| {
        var i := Find(list, history[k].from);
        assert next[i].ip == history[k].from;
      }
    }
  }

  lemma UpdateListsLatest(list: seq<Listed>, history: seq<Heard>, h: Heard)
    requires ListsLatest(list, history) && ListsInOrder(list, history)
    ensures ListsLatest(Updated(list, h), history + [h])
  {
    hide CopyReply;
    var next, longer := Updated(list, h), history + [h];
    assert longer[..|longer| - 1] == history;
    forall i, j | 0 <= i < j < |list| ensures list[i].ip != list[j].ip {
      assert FirstHeard(history, list[i].ip) < FirstHeard(history, list[j].ip);
    }
    forall i | 0 <= i < |next|
      ensures
        var k := LastHeard(longer, next[i].ip);
        k >= 0 && next[i].info == CopyReply(longer[k].reply)
    {
      if next[i].ip != h.from {
        assert i < |list| && next[i] == list[i];
        assert LastHeard(longer, list[i].ip) == LastHeard(history, list[i].ip);
      }
    }
  }

  lemma UpdateListsInOrder(list: seq<Listed>, history: seq<Heard>, h: Heard)
    requires IsDirectory(list, history)
    ensures ListsInOrder(Updated(list, h), history + [h])
  {
    UpdatedPositions(list, h);
    hide Updated, CopyReply;
    var next, longer := Updated(list, h), history + [h];
    forall i | 0 <= i < |list|
      ensures FirstHeard(longer, list[i].ip) == FirstHeard(history, list[i].ip) < |history|
    {
      assert LastHeard(history, list[i].ip) >= 0;
      FirstHeardStays(history, h, list[i].ip);
    }
    hide FirstHeard, Find, ListsAll;
    if |next| == |list| + 1 {
      FirstOfItsAddress(list, history, h);
    }
    forall i, j | 0 <= i < j < |next| ensures FirstHeard(longer, next[i].ip) < FirstHeard(longer, next[j].ip) {
      assert next[i].ip == list[i].ip;
      if j < |list| {
        assert FirstHeard(history, list[i].ip) < FirstHeard(history, list[j].ip);
      }
    }
  }

  lemma FirstOfItsAddress(list: seq<Listed>, history: seq<Heard>, h: Heard)
    requires ListsAll(list, history) && forall i :: 0 <= i < |list| ==> list[i].ip != h.from
    ensures FirstHeard(history + [h], h.from) == |history|
  {
    var longer := history + [h];
    forall k | 0 <= k < |history| ensures longer[k].from != h.from {
      assert Find(list, history[k].from) < |list|;
    }
    assert longer[|history|].from == h.from;
  }

  lemma FirstHeardStays(history: seq<Heard>, h: Heard, ip: nat)
    requires LastHeard(history, ip) >= 0
    ensures FirstHeard(history + [h], ip) == FirstHeard(history, ip) < |history|
  {
    assert (history + [h])[..|history + [h]| - 1] == history;
  }

  lemma UpdateIsDirectory(list: seq<Listed>, history: seq<Heard>, h: Heard)
    requires IsDirectory(list, history)
    ensures IsDirectory(Updated(list, h), history + [h])
  {
    UpdateListsAll(list, history, h);
    UpdateListsLatest(list, history, h);
    UpdateListsInOrder(list, history, h);
    hide Updated, ListsAll, ListsLatest, ListsInOrder;
  }

  /** The list of discovered nodes after any sequence of replies. */
  lemma {:induction false} ListIsDirectory(history: seq<Heard>)
    ensures IsDirectory(Discovered(history), history)
    decreases |history|
  {
    hide IsDirectory, Updated;
    if history == [] {
      NothingIsDirectory();
    } else {
      var before, h := history[..|history| - 1], history[|history| - 1];
      ListIsDirectory(before);
      assert history == before + [h] && Discovered(history) == Updated(Discovered(before), h);
      hide Discovered;
      UpdateIsDirectory(Discovered(before), before, h);
    }
  }

  lemma NothingIsDirectory()
    ensures IsDirectory([], [])
  {}

  /** What an entry shows of a reply, field by field; 16-bit fields by their two bytes. */
  predicate Shows(e: NodeInfo, r: PollReply) {
    && e.ip == r.ip && e.ubea == r.ubea && e.etsaman == r.etsaman
    && e.ver / 256 == r.verH && e.ver % 256 == r.ver
    && e.sub / 256 == r.subH && e.sub % 256 == r.sub
    && e.oem / 256 == r.oemH && e.oem % 256 == r.oem
    && e.numbports / 256 == r.numbportsH && e.numbports % 256 == r.numbports
    && e.shortname == r.shortname && e.longname == r.longname && e.nodereport == r.nodereport
    && e.porttypes == r.porttypes && e.goodinput == r.goodinput && e.goodoutput == r.goodoutput
    && e.swin == r.swin && e.swout == r.swout && e.swvideo == r.swvideo && e.swmacro == r.swmacro
    && e.swremote == r.swremote && e.style == r.style && e.mac == r.mac
  }

  /** Every entry shows the latest reply of its address, and nothing of any other. */
  lemma EntriesShowLatest(history: seq<Heard>, i: nat)
    requires i < |Discovered(history)|
    ensures
      var e := Discovered(history)[i];
      exists k :: 0 <= k < |history| && history[k].from == e.ip && Shows(e.info, history[k].reply)
        && forall j :: k < j < |history| ==> history[j].from != e.ip
  {
    ListIsDirectory(history);
    var e := Discovered(history)[i];
    var k := LastHeard(history, e.ip);
    assert ListsLatest(Discovered(history), history);
    hide Discovered, Shows, CopyReply, LastHeard;
    CopyShows(history[k].reply);
    LastIsLast(history, e.ip);
    hide ListsLatest, ListsAll, ListsInOrder;
  }

  lemma CopyShows(r: PollReply)
    ensures Shows(CopyReply(r), r)
  {
    HalvesOf(r.verH, r.ver);
    HalvesOf(r.subH, r.sub);
    HalvesOf(r.oemH, r.oem);
    HalvesOf(r.numbportsH, r.numbports);
    hide BytesToShort;
  }

  lemma HalvesOf(high: Byte, low: Byte)
    ensures BytesToShort(high, low) / 256 == high && BytesToShort(high, low) % 256 == low
  {}

  lemma {:induction false} LastIsLast(history: seq<Heard>, ip: nat)
    ensures
      var k := LastHeard(history, ip);
      && k < |history| && (k >= 0 ==> history[k].from == ip)
      && forall j :: 0 <= j < |history| && k < j ==> history[j].from != ip
    decreases |history|
  {
    if history != [] {
      LastIsLast(history[..|history| - 1], ip);
    }
  }

  // ----- The linked list

  class Entry {
    var pub: NodeInfo
    var ip: nat
    var next: Entry?

    constructor (ip: nat, pub: NodeInfo)
      ensures this.ip == ip && this.pub == pub && next == null
    {
      this.ip, this.pub, next := ip, pub, null;
    }
  }

  class NodeList {
    var first: Entry?
    var last: Entry?
    var length: nat
    ghost var spine: seq<Entry>

    /** The chain from `first` is acyclic and holds the entries of `spine`, `last` is its tail. */
    ghost predicate Valid()
      reads this, spine
    {
      && length == |spine|
      && (forall i, j :: 0 <= i < j < |spine| ==> spine[i] != spine[j])
      && (forall i {:trigger spine[i].next} :: 0 <= i < |spine| ==>
            spine[i].next == if i + 1 < |spine| then spine[i + 1] else null)
      && (if spine == [] then first == null && last == null
          else first == spine[0] && last == spine[|spine| - 1])
    }

    ghost function Value(): seq<Listed>
      reads this, spine
    {
      seq(|spine|, i requires 0 <= i < |spine| reads this, spine => Listed(spine[i].ip, spine[i].pub))
    }

    constructor ()
      ensures Valid() && Value() == []
    {
      first, last, length, spine := null, null, 0, [];
    }

    /** find_entry_from_ip */
    method FindEntryFromIp(ip: nat) returns (entry: Entry?)
      requires Valid()
      ensures entry == if Find(Value(), ip) < |spine| then spine[Find(Value(), ip)] else null
    {
      entry := first;
      ghost var i := 0;
      while entry != null
        invariant 0 <= i <= |spine|
        invariant entry == if i < |spine| then spine[i] else null
        invariant forall j :: 0 <= j < i ==> Value()[j].ip != ip
        decreases |spine| - i
      {
        if ip == entry.ip {
          assert Value()[i].ip == ip;
          return;
        }
        assert Value()[i].ip == spine[i].ip;
        entry := entry.next;
        i := i + 1;
      }
    }

    /** artnet_nl_update; `allocated` says whether malloc found room for a new entry. */
    method Update(h: Heard, mallocOk: bool) returns (ret: int)
      requires Valid()
      modifies this, spine
      ensures Valid()
      ensures spine == old(spine) || (|spine| == |old(spine)| + 1 && old(spine) <= spine && fresh(spine[|spine| - 1]))
      ensures ret == ARTNET_EMEM <==> !mallocOk && Find(old(Value()), h.from) == |old(spine)|
      ensures ret == ARTNET_EMEM ==> Value() == old(Value())
      ensures ret != ARTNET_EMEM ==> ret == ARTNET_EOK && Value() == Updated(old(Value()), h)
    {
      hide CopyReply;
      var entry := FindEntryFromIp(h.from);
      if entry == null {
        if !mallocOk {
          return ARTNET_EMEM;
        }
        entry := new Entry(h.from, CopyReply(h.reply));
        if first == null {
          first := entry;
          last := entry;
        } else {
          last.next := entry;
          last := entry;
        }
        length := length + 1;
        spine := spine + [entry];
      } else {
        entry.pub := CopyReply(h.reply);
      }
      return ARTNET_EOK;
    }

    /** The list after any sequence of replies, as long as there is memory. */
    method UpdateAll(history: seq<Heard>)
      requires Valid() && spine == []
      modifies this
      ensures Valid() && Value() == Discovered(history) && IsDirectory(Value(), history)
    {
      hide Updated, IsDirectory, Valid;
      assert history[..0] == [];
      ValueOfNothing();
      for k := 0 to |history|
        invariant Valid() && Value() == Discovered(history[..k])
        invariant forall i :: 0 <= i < |spine| ==> fresh(spine[i])
      {
        assert history[..k + 1][..k] == history[..k];
        var _ := Update(history[k], true);
      }
      assert history[..|history|] == history;
      ListIsDirectory(history);
    }

    lemma ValueOfNothing()
      ensures spine == [] ==> Value() == []
    {}
  }
}
