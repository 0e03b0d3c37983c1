/**
 The tunterm-ip4-vxlan-bypass node: terminates VXLAN over IPv4 for local tunnels and hands
 the packet, positioned at its VXLAN header, to tunterm-acl.  The node walks a frame two
 packets at a time, then one at a time, and remembers the last tunnel found.
 */
module BypassNode {
  import opened Basics
  import opened Buffers
  import opened TunnelCache

  const NEXT_DROP: nat := 0
  const NEXT_TUNTERM: nat := 2

  const IP4_HEADER := 20
  const UDP_HEADER := 8
  const MAX_OUTER := 68  // the longest IPv4 header and UDP

  const PROTOCOL_UDP := 17
  const PROTOCOL_FRAGMENT := 0xFE

  const ERROR_NONE: nat := 0
  const ERROR_UDP_CHECKSUM: nat := 1
  const ERROR_UDP_LENGTH: nat := 2

  /** What the node asks of the rest of VPP. */
  datatype Env = Env(
    tunnels: Tunnels,
    fibIndex: Buffer -> u32,
    isLocalVtep: (u32, seq<byte>) -> bool,
    checksumKnownGood: Buffer -> bool,
    checksumIsGood: Buffer -> bool,
    featureNext: Buffer -> nat)

  predicate Room(b: Buffer) { Has(b, b.current, MAX_OUTER) }

  // ----- Header fields -----

  function ByteAt(b: Buffer, o: nat): byte
    requires Room(b) && o < MAX_OUTER
  {
    b.mem[HEADROOM + b.current + o]
  }

  function Net16(b: Buffer, o: nat): u16
    requires Room(b) && o + 1 < MAX_OUTER
  {
    ByteAt(b, o) as int * 0x100 + ByteAt(b, o + 1) as int
  }

  function Host16(b: Buffer, o: nat): u16
    requires Room(b) && o + 1 < MAX_OUTER
  {
    ByteAt(b, o + 1) as int * 0x100 + ByteAt(b, o) as int
  }

  predicate IsFragment(b: Buffer)
    requires Room(b)
  {
    ByteAt(b, 6) % 0x40 != 0 || ByteAt(b, 7) != 0
  }

  /** Where the UDP header starts, options included. */
  function UdpOffset(b: Buffer): (o: nat)
    requires Room(b)
    ensures o <= MAX_OUTER - UDP_HEADER
  {
    ByteAt(b, 0) % 0x10 * 4
  }

  function OuterOf(env: Env, b: Buffer): (h: Outer)
    requires Room(b)
    ensures WellFormed(h)
  {
    Outer(ByteAt(b, IP4_HEADER + UDP_HEADER),
          Bytes(b, b.current + 16, 4),
          Bytes(b, b.current + 12, 4),
          Host16(b, UdpOffset(b) + 2),
          env.fibIndex(b),
          Load32(Bytes(b, b.current + IP4_HEADER + UDP_HEADER + 4, 4)))
  }

  function Protocol(b: Buffer): byte
    requires Room(b)
  {
    if IsFragment(b) then PROTOCOL_FRAGMENT else ByteAt(b, 9)
  }

  function ErrorOf(env: Env, b: Buffer): nat
    requires Room(b)
  {
    var good := env.checksumKnownGood(b) || Net16(b, UdpOffset(b) + 6) == 0 || env.checksumIsGood(b);
    if Net16(b, 2) < Net16(b, UdpOffset(b) + 4) then ERROR_UDP_LENGTH
    else if good then ERROR_NONE
    else ERROR_UDP_CHECKSUM
  }

  // ----- What the node should do with one packet -----

  /** A packet on its way to the next node, and the interface its tunnel is counted against. */
  datatype Sent = Sent(b: Buffer, next: nat, stats: u32)

  /** A UDP packet is terminated exactly when it is of a known tunnel and for a local VTEP. */
  function Terminate(env: Env, b: Buffer, swIf: u32, stats: u32): Sent
    requires Room(b)
  {
    if swIf == NONE || !env.isLocalVtep(env.fibIndex(b), Bytes(b, b.current + 16, 4))
    then Sent(b, env.featureNext(b), stats)
    else
      var e := ErrorOf(env, b);
      Sent(Advance(b.(error := e), IP4_HEADER + UDP_HEADER),
           if e == ERROR_NONE then NEXT_TUNTERM else NEXT_DROP, stats)
  }

  /** A packet that is not UDP, or a fragment, stays on the feature arc. */
  function Untouched(env: Env, b: Buffer): Sent { Sent(b, env.featureNext(b), NONE) }

  /** One packet, with the tunnel looked up afresh. */
  function Judge(env: Env, b: Buffer): Sent
    requires Room(b)
  {
    if Protocol(b) != PROTOCOL_UDP then Untouched(env, b)
    else
      var found := Plain(env.tunnels, OuterOf(env, b));
      Terminate(env, b, found.info.swIf, found.stats)
  }

  /** One packet, through the cache. */
  function Step(env: Env, cache: Cache, b: Buffer): (Sent, Cache)
    requires Room(b)
  {
    if Protocol(b) != PROTOCOL_UDP then (Untouched(env, b), cache)
    else
      var (found, cache') := Cached(env.tunnels, cache, OuterOf(env, b));
      (Terminate(env, b, found.info.swIf, found.stats), cache')
  }

  /** A frame, packet by packet, threading the cache. */
  function Walk(env: Env, cache: Cache, bs: seq<Buffer>): (r: (seq<Sent>, Cache))
    requires forall k :: 0 <= k < |bs| ==> Room(bs[k])
    ensures |r.0| == |bs|
  {
    if bs == [] then ([], cache)
    else
      var n := |bs| - 1;
      var (sent, cache') := Walk(env, cache, bs[..n]);
      var (s, cache'') := Step(env, cache', bs[n]);
      (sent + [s], cache'')
  }

  lemma StepAgrees(env: Env, cache: Cache, b: Buffer)
    requires Room(b) && NoTrap(env.tunnels) && Fresh(env.tunnels, cache)
    ensures Step(env, cache, b).0 == Judge(env, b)
    ensures Fresh(env.tunnels, Step(env, cache, b).1)
  {
    hide OuterOf;
    CachedAgrees(env.tunnels, cache, OuterOf(env, b));
  }

  /** On every frame, threading the cache makes no difference to any packet. */
  lemma {:induction false} WalkIsMap(env: Env, bs: seq<Buffer>)
    requires NoTrap(env.tunnels)
    requires forall k :: 0 <= k < |bs| ==> Room(bs[k])
    ensures Fresh(env.tunnels, Walk(env, EMPTY, bs).1)
    ensures forall k :: 0 <= k < |bs| ==> Walk(env, EMPTY, bs).0[k] == Judge(env, bs[k])
  {
    hide Step, Judge, Room, NoTrap;
    if bs != [] {
      var n := |bs| - 1;
      WalkIsMap(env, bs[..n]);
      StepAgrees(env, Walk(env, EMPTY, bs[..n]).1, bs[n]);
    }
  }

  // ----- What it does -----

  /** One packet through the node's straight-line code. */
  method Process(env: Env, cache: Cache, b: Buffer) returns (s: Sent, cache': Cache)
    requires Room(b)
    ensures (s, cache') == Step(env, cache, b)
  {
    hide OuterOf, Cached, ByteAt, Net16, UdpOffset, IsFragment;
    cache' := cache;
    s := Sent(b, env.featureNext(b), NONE);
    var proto := if IsFragment(b) then PROTOCOL_FRAGMENT else ByteAt(b, 9);
    if proto != PROTOCOL_UDP {
      return;
    }
    var udp := UdpOffset(b);
    var info, stats;
    info, stats, cache' := FindTunnel(env.tunnels, cache, OuterOf(env, b));
    s := s.(stats := stats);
    if info.swIf == NONE {
      return;
    }
    if !env.isLocalVtep(env.fibIndex(b), Bytes(b, b.current + 16, 4)) {
      return;
    }
    var good := env.checksumKnownGood(b);
    good := good || Net16(b, udp + 6) == 0;
    var lenDiff := Net16(b, 2) as int - Net16(b, udp + 4) as int;
    if !good {
      good := env.checksumIsGood(b);
    }
    var error := if good then ERROR_NONE else ERROR_UDP_CHECKSUM;
    error := if lenDiff >= 0 then error else ERROR_UDP_LENGTH;
    var next := if error != ERROR_NONE then NEXT_DROP else NEXT_TUNTERM;
    s := Sent(Advance(b.(error := error), IP4_HEADER + UDP_HEADER), next, stats);
  }

  /** The first `i` packets of a frame are sent; the others are untouched. */
  ghost predicate Sofar(env: Env, bs: seq<Buffer>, bufs: array<Buffer>, i: nat, sent: seq<Sent>, cache: Cache)
    reads bufs
  {
    && bufs.Length == |bs| && i <= |bs| && i == |sent|
    && (forall k :: 0 <= k < |bs| ==> Room(bs[k]))
    && (sent, cache) == Walk(env, EMPTY, bs[..i])
    && (forall k :: 0 <= k < i ==> bufs[k] == sent[k].b)
    && (forall k :: i <= k < |bs| ==> bufs[k] == bs[k])
  }

  /** Takes the next packet of a frame. */
  method Take(env: Env, bufs: array<Buffer>, i: nat, sent: seq<Sent>, cache: Cache, ghost bs: seq<Buffer>)
    returns (sent': seq<Sent>, cache': Cache)
    requires Sofar(env, bs, bufs, i, sent, cache) && i < bufs.Length
    modifies bufs
    ensures Sofar(env, bs, bufs, i + 1, sent', cache')
  {
    hide Step, Room;
    assert bs[..i + 1][..i] == bs[..i];
    var s;
    s, cache' := Process(env, cache, bufs[i]);
    bufs[i] := s.b;
    sent' := sent + [s];
  }

  /** The node on a frame.  `grant` is the space each fetched next frame offers, `left` the
      space an enqueue leaves.  Every packet is sent once, in order, as if it were alone. */
  method Node(env: Env, bufs: array<Buffer>, grant: nat -> nat, left: nat -> nat) returns (sent: seq<Sent>)
    requires forall n :: grant(n) > 0
    requires forall k :: 0 <= k < bufs.Length ==> Room(bufs[k])
    modifies bufs
    ensures sent == Walk(env, EMPTY, old(bufs[..])).0
    ensures forall k :: 0 <= k < bufs.Length ==> bufs[k] == sent[k].b
    ensures NoTrap(env.tunnels) ==> forall k :: 0 <= k < bufs.Length ==> sent[k] == Judge(env, old(bufs[k]))
  {
    ghost var bs := bufs[..];
    var cache := EMPTY;
    var i, asks := 0, 0;
    sent := [];
    assert Sofar(env, bs, bufs, 0, sent, cache);
    hide Sofar, Judge, Walk, Room, NoTrap;
    while i < bufs.Length
      invariant i <= bufs.Length && Sofar(env, bs, bufs, i, sent, cache)
    {
      ghost var start := i;
      var space := grant(asks);
      asks := asks + 1;
      while bufs.Length - i >= 4 && space >= 2
        invariant start <= i <= bufs.Length && (i == start ==> space > 0)
        invariant Sofar(env, bs, bufs, i, sent, cache)
      {
        sent, cache := Take(env, bufs, i, sent, cache, bs);
        sent, cache := Take(env, bufs, i + 1, sent, cache, bs);
        i, space, asks := i + 2, left(asks), asks + 1;
      }
      while i < bufs.Length && space > 0
        invariant start <= i <= bufs.Length && (i == start ==> space > 0)
        invariant Sofar(env, bs, bufs, i, sent, cache)
      {
        sent, cache := Take(env, bufs, i, sent, cache, bs);
        i, space, asks := i + 1, left(asks), asks + 1;
      }
    }
    WholeFrame(env, bs, bufs, sent, cache);
  }

  lemma WholeFrame(env: Env, bs: seq<Buffer>, bufs: array<Buffer>, sent: seq<Sent>, cache: Cache)
    requires Sofar(env, bs, bufs, bufs.Length, sent, cache)
    ensures |sent| == |bs| == bufs.Length && (forall k :: 0 <= k < |bs| ==> Room(bs[k]))
    ensures sent == Walk(env, EMPTY, bs).0
    ensures forall k :: 0 <= k < bufs.Length ==> bufs[k] == sent[k].b
    ensures NoTrap(env.tunnels) ==> forall k :: 0 <= k < bufs.Length ==> sent[k] == Judge(env, bs[k])
  {
    hide Walk, Judge, Room, NoTrap;
    assert bs[..bufs.Length] == bs;
    if NoTrap(env.tunnels) {
      WalkIsMap(env, bs);
    }
  }
}
