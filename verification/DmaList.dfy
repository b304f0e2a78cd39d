/** DMA list commands: their nodes, and how et-rs/src/proto.rs puts them on the wire. */
module DmaList {
  import opened LittleEndian
  import opened Arith
  import opened Sequences
  import opened Wrappers

  const HEADER: nat := 8
  const NODE: nat := 32
  const U16_MAX: nat := 0xFFFF
  const READLIST: nat := 525
  const WRITELIST: nat := 527
  const BARRIER: nat := 1

  type U16 = n: nat | n < 0x1_0000
  type U32 = n: nat | n < 0x1_0000_0000
  type U64 = n: nat | n < 0x1_0000_0000_0000_0000

  datatype Node = Node(hostVirt: U64, hostPhys: U64, device: U64, size: U32)

  datatype Command = Command(tag: U16, id: U16, flags: U16, nodes: seq<Node>)

  /** Where a transfer takes place: the virtual and physical address of its host buffer and
      its device address. Assumes, as the driver does, that none of the three ranges wraps. */
  datatype Place = Place(virt: U64, phys: U64, device: U64)

  predicate InRange(at: Place, len: nat) {
    at.virt + len < 0x1_0000_0000_0000_0000 && at.phys + len < 0x1_0000_0000_0000_0000
    && at.device + len < 0x1_0000_0000_0000_0000
  }

  /** A physical base of zero means that the backend resolves the address itself. */
  function NodePhys(base: nat, offset: nat): nat {
    if base == 0 then 0 else base + offset
  }

  /** The most nodes one command may carry: the device's element count limit, what the
      16-bit size field can express, and what fits a submission queue message. */
  function MaxListNodes(elemCount: nat, message: nat): (n: nat)
    ensures n >= 1
    ensures HEADER + NODE * n <= U16_MAX
    ensures elemCount >= 1 ==> n <= elemCount
    ensures message >= HEADER + NODE ==> HEADER + NODE * n <= message
    ensures elemCount <= n || HEADER + NODE * (n + 1) > U16_MAX || HEADER + NODE * (n + 1) > message
  {
    var byField := (U16_MAX - HEADER) / NODE;
    var byMessage := (if message < HEADER then 0 else message - HEADER) / NODE;
    Max(Min(Min(elemCount, byField), byMessage), 1)
  }

  // --- Splitting a transfer ----------------------------------------------------

  /** The nodes cover the bytes from `from` to `to` of a transfer at `at`, in order, each of
      at most `maxElem` bytes. */
  predicate Tiles(nodes: seq<Node>, at: Place, maxElem: nat, from: nat, to: nat)
    decreases |nodes|
  {
    if nodes == [] then from == to
    else
      var last := nodes[|nodes| - 1];
      && 0 < last.size <= maxElem
      && from + last.size <= to
      && (var offset := to - last.size;
          && last.hostVirt == at.virt + offset
          && last.hostPhys == NodePhys(at.phys, offset)
          && last.device == at.device + offset
          && Tiles(nodes[..|nodes| - 1], at, maxElem, from, offset))
  }

  /** `n` commands of up to `per` bytes each are just enough for `len` bytes. */
  predicate JustEnough(n: nat, len: nat, per: nat) {
    0 < n && (n - 1) * per < len <= n * per
  }

  lemma OneIsEnoughIff(n: nat, len: nat, per: nat)
    requires JustEnough(n, len, per)
    ensures n <= 1 <==> len <= per
  {
    if n > 1 {
      MulMonotone(1, n - 1, per);
    }
  }

  /** Half way through the split: `pushed` full commands have taken the bytes up to `start`,
      and `count` nodes those up to `offset`; each node but the last of all is full. */
  predicate Splitting(len: nat, maxElem: nat, maxNodes: nat, pushed: nat, start: nat, count: nat, offset: nat) {
    && start <= offset <= len && offset <= start + count * maxElem
    && (offset < len ==> offset == start + count * maxElem)
    && (if start < len then start == pushed * (maxNodes * maxElem) else JustEnough(pushed, len, maxNodes * maxElem))
  }

  lemma SplitBegins(len: nat, maxElem: nat, maxNodes: nat)
    requires 0 < len
    ensures Splitting(len, maxElem, maxNodes, 0, 0, 0, 0)
  {
  }

  lemma NodeAdded(len: nat, maxElem: nat, maxNodes: nat, pushed: nat, start: nat, count: nat, offset: nat)
    requires Splitting(len, maxElem, maxNodes, pushed, start, count, offset) && start < len && offset < len
    ensures Splitting(len, maxElem, maxNodes, pushed, start, count + 1, offset + Min(len - offset, maxElem))
  {
    Distribute(count, 1, maxElem);
  }

  lemma CommandPushed(len: nat, maxElem: nat, maxNodes: nat, pushed: nat, start: nat, count: nat, offset: nat)
    requires Splitting(len, maxElem, maxNodes, pushed, start, count, offset) && start < len && count <= maxNodes
    requires count == maxNodes || offset == len
    ensures Splitting(len, maxElem, maxNodes, pushed + 1, offset, 0, offset)
  {
    var per := maxNodes * maxElem;
    Distribute(pushed, 1, per);
    MulMonotone(count, maxNodes, maxElem);
  }

  lemma SplitEnds(len: nat, maxElem: nat, maxNodes: nat, pushed: nat, start: nat, count: nat, offset: nat)
    requires Splitting(len, maxElem, maxNodes, pushed, start, count, offset) && start == len
    ensures JustEnough(pushed, len, maxNodes * maxElem)
  {
  }

  lemma TilesPush(nodes: seq<Node>, node: Node, at: Place, maxElem: nat, from: nat, offset: nat)
    requires Tiles(nodes, at, maxElem, from, offset) && 0 < node.size <= maxElem && from <= offset
    requires node.hostVirt == at.virt + offset && node.hostPhys == NodePhys(at.phys, offset)
    requires node.device == at.device + offset
    ensures Tiles(nodes + [node], at, maxElem, from, offset + node.size)
  {
    assert (nodes + [node])[..|nodes|] == nodes;
  }

  lemma NoTiles(at: Place, maxElem: nat, from: nat)
    ensures Tiles([], at, maxElem, from, from)
  {
  }

  predicate NodeCovers(node: Node, at: Place, p: nat) {
    node.device <= at.device + p < node.device + node.size
  }

  /** Byte `p` of the transfer belongs to one node, which moves it between host byte `p`
      and device byte `p`, and to no other. */
  lemma {:induction false} EveryByteOnce(
      nodes: seq<Node>, at: Place, maxElem: nat, from: nat, to: nat, p: nat) returns (i: nat)
    requires Tiles(nodes, at, maxElem, from, to) && from <= p < to
    ensures i < |nodes| && NodeCovers(nodes[i], at, p)
    ensures nodes[i].device - at.device == nodes[i].hostVirt - at.virt
    ensures forall k | 0 <= k < |nodes| && NodeCovers(nodes[k], at, p) :: k == i
    decreases |nodes|
  {
    var n := |nodes| - 1;
    if p >= to - nodes[n].size {
      i := n;
      forall k | 0 <= k < n
        ensures !NodeCovers(nodes[k], at, p)
      {
        EarlierNodesEnd(nodes[..n], at, maxElem, from, to - nodes[n].size, k);
      }
    } else {
      i := EveryByteOnce(nodes[..n], at, maxElem, from, to - nodes[n].size, p);
    }
  }

  lemma {:induction false} EarlierNodesEnd(
      nodes: seq<Node>, at: Place, maxElem: nat, from: nat, to: nat, k: nat)
    requires Tiles(nodes, at, maxElem, from, to) && k < |nodes|
    ensures at.device + from <= nodes[k].device && nodes[k].device + nodes[k].size <= at.device + to
    decreases |nodes|
  {
    var n := |nodes| - 1;
    if k < n {
      EarlierNodesEnd(nodes[..n], at, maxElem, from, to - nodes[n].size, k);
    } else {
      TilesSpan(nodes, at, maxElem, from, to);
    }
  }

  lemma {:induction false} TilesSpan(nodes: seq<Node>, at: Place, maxElem: nat, from: nat, to: nat)
    requires Tiles(nodes, at, maxElem, from, to)
    ensures from <= to
    decreases |nodes|
  {
    if nodes != [] {
      TilesSpan(nodes[..|nodes| - 1], at, maxElem, from, to - nodes[|nodes| - 1].size);
    }
  }

  /** Commands sent one after the other cover their ranges one after the other. */
  lemma {:induction false} TilesAppend(a: seq<Node>, b: seq<Node>, at: Place, maxElem: nat, from: nat, mid: nat, to: nat)
    requires Tiles(a, at, maxElem, from, mid) && Tiles(b, at, maxElem, mid, to)
    ensures Tiles(a + b, at, maxElem, from, to)
    decreases |b|
  {
    if b == [] {
      assert a + b == a;
    } else {
      var n := |b| - 1;
      TilesAppend(a, b[..n], at, maxElem, from, mid, to - b[n].size);
      TilesSpan(a, at, maxElem, from, mid);
      TilesSpan(b[..n], at, maxElem, mid, to - b[n].size);
      assert (a + b)[..|a| + n] == a + b[..n];
    }
  }

  /** Half way through a transfer: `sent` has been pushed, in `pushed` commands, and `nodes` come
      next. */
  predicate Packing(at: Place, len: nat, maxElem: nat, maxNodes: nat, sent: seq<Node>, pushed: nat, start: nat,
                    nodes: seq<Node>, offset: nat) {
    && start <= offset <= len && |nodes| <= maxNodes
    && Tiles(sent, at, maxElem, 0, start) && Tiles(nodes, at, maxElem, start, offset)
    && Splitting(len, maxElem, maxNodes, pushed, start, |nodes|, offset)
  }

  /** The nodes `sent` cover the whole transfer, in just as many commands as it takes. */
  predicate Covered(at: Place, len: nat, maxElem: nat, maxNodes: nat, sent: seq<Node>, pushed: nat) {
    Tiles(sent, at, maxElem, 0, len) && JustEnough(pushed, len, maxNodes * maxElem)
  }

  lemma PackingBegins(at: Place, len: nat, maxElem: nat, maxNodes: nat)
    requires 0 < len
    ensures Packing(at, len, maxElem, maxNodes, [], 0, 0, [], 0)
  {
    SplitBegins(len, maxElem, maxNodes);
  }

  lemma PackNode(at: Place, len: nat, maxElem: nat, maxNodes: nat, sent: seq<Node>, pushed: nat, start: nat,
                 nodes: seq<Node>, offset: nat, node: Node)
    requires Packing(at, len, maxElem, maxNodes, sent, pushed, start, nodes, offset)
    requires 0 < maxElem && |nodes| < maxNodes && offset < len && node.size == Min(len - offset, maxElem)
    requires node.hostVirt == at.virt + offset && node.hostPhys == NodePhys(at.phys, offset)
    requires node.device == at.device + offset
    ensures Packing(at, len, maxElem, maxNodes, sent, pushed, start, nodes + [node], offset + node.size)
    ensures start < offset + node.size
  {
    hide Splitting;
    NodeAdded(len, maxElem, maxNodes, pushed, start, |nodes|, offset);
    TilesPush(nodes, node, at, maxElem, start, offset);
    hide Tiles;
  }

  lemma PackCommand(at: Place, len: nat, maxElem: nat, maxNodes: nat, sent: seq<Node>, pushed: nat, start: nat,
                    nodes: seq<Node>, offset: nat)
    requires Packing(at, len, maxElem, maxNodes, sent, pushed, start, nodes, offset) && start < len
    requires |nodes| == maxNodes || offset == len
    ensures Packing(at, len, maxElem, maxNodes, sent + nodes, pushed + 1, offset, [], offset)
  {
    hide Splitting;
    TilesAppend(sent, nodes, at, maxElem, 0, start, offset);
    CommandPushed(len, maxElem, maxNodes, pushed, start, |nodes|, offset);
    NoTiles(at, maxElem, offset);
    hide Tiles;
  }

  lemma PackingEnds(at: Place, len: nat, maxElem: nat, maxNodes: nat, sent: seq<Node>, pushed: nat,
                    nodes: seq<Node>, offset: nat)
    requires Packing(at, len, maxElem, maxNodes, sent, pushed, len, nodes, offset)
    ensures Covered(at, len, maxElem, maxNodes, sent, pushed)
  {
    hide Tiles;
    SplitEnds(len, maxElem, maxNodes, pushed, len, |nodes|, offset);
  }

  // --- The wire format -----------------------------------------------------------

  function EncodeNode(node: Node): (b: seq<Byte>)
    ensures |b| == NODE
  {
    Encode(node.hostVirt, 8) + Encode(node.hostPhys, 8) + Encode(node.device, 8) + Encode(node.size, 4)
    + [0, 0, 0, 0]
  }

  function EncodeNodes(nodes: seq<Node>): (b: seq<Byte>)
    ensures |b| == NODE * |nodes|
    decreases |nodes|
  {
    if nodes == [] then [] else EncodeNode(nodes[0]) + EncodeNodes(nodes[1..])
  }

  /** `command_size`, which panics (here `None`) on a size that its field cannot hold. */
  function CommandSize(total: nat): Option<U16> {
    if total <= U16_MAX then Some(total) else None
  }

  /** `build_dma_readlist` and `build_dma_writelist`. */
  function EncodeCommand(c: Command): Option<seq<Byte>> {
    var total := HEADER + NODE * |c.nodes|;
    match CommandSize(total)
    case None => None
    case Some(size) =>
      Some(Encode(size, 2) + Encode(c.tag, 2) + Encode(c.id, 2) + Encode(c.flags, 2) + EncodeNodes(c.nodes))
  }

  /** How the device reads a node: the offsets of the C structure. */
  function DecodeNode(b: seq<Byte>): Node
    requires |b| == NODE
  {
    Widths();
    Node(Decode(b[0..8]), Decode(b[8..16]), Decode(b[16..24]), Decode(b[24..28]))
  }

  function DecodeNodes(b: seq<Byte>): seq<Node>
    decreases |b|
  {
    if |b| < NODE then [] else [DecodeNode(b[..NODE])] + DecodeNodes(b[NODE..])
  }

  /** How the device reads a command of the size its header states. */
  function DecodeCommand(b: seq<Byte>): Option<Command> {
    Widths();
    if |b| < HEADER || Decode(b[0..2]) != |b| then None
    else Some(Command(Decode(b[2..4]), Decode(b[4..6]), Decode(b[6..8]), DecodeNodes(b[HEADER..])))
  }

  lemma NodeRoundTrips(node: Node)
    ensures DecodeNode(EncodeNode(node)) == node
  {
    Widths();
    FourParts(Encode(node.hostVirt, 8), Encode(node.hostPhys, 8), Encode(node.device, 8), Encode(node.size, 4),
              [0, 0, 0, 0]);
    RoundTrip(node.hostVirt, 8);
    RoundTrip(node.hostPhys, 8);
    RoundTrip(node.device, 8);
    RoundTrip(node.size, 4);
  }

  lemma {:induction false} NodesRoundTrip(nodes: seq<Node>)
    ensures DecodeNodes(EncodeNodes(nodes)) == nodes
    decreases |nodes|
  {
    hide EncodeNode, DecodeNode;
    if nodes != [] {
      var b := EncodeNodes(nodes);
      assert b[..NODE] == EncodeNode(nodes[0]);
      assert b[NODE..] == EncodeNodes(nodes[1..]);
      NodeRoundTrips(nodes[0]);
      NodesRoundTrip(nodes[1..]);
    }
  }

  lemma HeaderRoundTrips(size: U16, tag: U16, id: U16, flags: U16, rest: seq<Byte>)
    ensures
      var b := Encode(size, 2) + Encode(tag, 2) + Encode(id, 2) + Encode(flags, 2) + rest;
      && Decode(b[0..2]) == size && Decode(b[2..4]) == tag && Decode(b[4..6]) == id && Decode(b[6..8]) == flags
      && b[8..] == rest
  {
    Widths();
    FourParts(Encode(size, 2), Encode(tag, 2), Encode(id, 2), Encode(flags, 2), rest);
    RoundTrip(size, 2);
    RoundTrip(tag, 2);
    RoundTrip(id, 2);
    RoundTrip(flags, 2);
  }

  lemma {:induction false} NodeBytes(nodes: seq<Node>, i: nat)
    requires i < |nodes|
    ensures EncodeNodes(nodes)[NODE * i..NODE * i + NODE] == EncodeNode(nodes[i])
    decreases i
  {
    hide EncodeNode;
    var all := EncodeNodes(nodes);
    if i > 0 {
      NodeBytes(nodes[1..], i - 1);
      assert all[NODE..] == EncodeNodes(nodes[1..]);
      assert all[NODE * i..NODE * i + NODE] == all[NODE..][NODE * (i - 1)..NODE * (i - 1) + NODE];
    }
  }

  lemma NodeFields(node: Node)
    ensures
      var b := EncodeNode(node);
      && Field(b, 0, 8) == node.hostVirt && Field(b, 8, 8) == node.hostPhys && Field(b, 16, 8) == node.device
      && Field(b, 24, 4) == node.size
  {
    NodeRoundTrips(node);
    hide EncodeNode, Decode;
  }

  /** The header of an encoded command: its size, tag, identifier and flags, two bytes each. */
  lemma HeaderOffsets(c: Command)
    requires EncodeCommand(c).Some?
    ensures
      var b := EncodeCommand(c).value;
      && |b| == 8 + 32 * |c.nodes| && Field(b, 0, 2) == |b| && Field(b, 2, 2) == c.tag && Field(b, 4, 2) == c.id
      && Field(b, 6, 2) == c.flags && b[8..] == EncodeNodes(c.nodes)
  {
    HeaderRoundTrips(HEADER + NODE * |c.nodes|, c.tag, c.id, c.flags, EncodeNodes(c.nodes));
    hide Encode, Decode, EncodeNodes;
  }

  lemma PartField(b: seq<Byte>, p: nat, part: seq<Byte>, at: nat, n: nat)
    requires p + |part| <= |b| && b[p..p + |part|] == part && at + n <= |part|
    ensures Field(b, p + at, n) == Field(part, at, n)
  {
    SliceOfSlice(b, p, p + |part|, at, at + n);
  }

  /** A node on the wire: the host's virtual and physical address, the device address, and the
      size. */
  predicate NodeIn(b: seq<Byte>, p: nat, node: Node) {
    && p + 32 <= |b|
    && Field(b, p, 8) == node.hostVirt && Field(b, p + 8, 8) == node.hostPhys && Field(b, p + 16, 8) == node.device
    && Field(b, p + 24, 4) == node.size
  }

  /** The nodes follow the header, 32 bytes each. */
  lemma NodeOffsets(c: Command, i: nat)
    requires EncodeCommand(c).Some? && i < |c.nodes|
    ensures NodeIn(EncodeCommand(c).value, 8 + 32 * i, c.nodes[i])
  {
    hide NodeIn, EncodeNode;
    HeaderOffsets(c);
    NodeBytes(c.nodes, i);
    hide EncodeCommand, EncodeNodes;
    NodeInPlace(EncodeCommand(c).value, EncodeNodes(c.nodes), 32 * i, c.nodes[i]);
  }

  lemma NodeInPlace(b: seq<Byte>, nodes: seq<Byte>, at: nat, node: Node)
    requires 8 <= |b| && b[8..] == nodes && at + 32 <= |nodes| && nodes[at..at + 32] == EncodeNode(node)
    ensures NodeIn(b, 8 + at, node)
  {
    NodeFields(node);
    hide EncodeNode, Field;
    SliceOfSlice(b, 8, |b|, at, at + 32);
    assert b[8..|b|] == b[8..];
    assert b[8 + at..8 + at + 32] == EncodeNode(node);
    PartField(b, 8 + at, EncodeNode(node), 0, 8);
    PartField(b, 8 + at, EncodeNode(node), 8, 8);
    PartField(b, 8 + at, EncodeNode(node), 16, 8);
    PartField(b, 8 + at, EncodeNode(node), 24, 4);
  }

  /** A command within the node limit is always encodable, and the device reads back the
      same nodes from it. */
  lemma CommandRoundTrips(c: Command, elemCount: nat, message: nat)
    requires |c.nodes| <= MaxListNodes(elemCount, message)
    ensures EncodeCommand(c).Some? && DecodeCommand(EncodeCommand(c).value) == Some(c)
  {
    hide Encode, Decode, EncodeNodes, DecodeNodes, DecodeNode, EncodeNode;
    HeaderRoundTrips(HEADER + NODE * |c.nodes|, c.tag, c.id, c.flags, EncodeNodes(c.nodes));
    NodesRoundTrip(c.nodes);
  }

  /** The builders panic exactly on a command of more nodes than the size field allows. */
  lemma EncodableIff(c: Command)
    ensures EncodeCommand(c).Some? <==> |c.nodes| <= MaxListNodes(U16_MAX, U16_MAX)
  {
  }
}
