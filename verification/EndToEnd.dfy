/**
 The bypass node and the ACL node together, on packets described by their headers rather
 than by offsets.  The layouts are written out here: section 3.1 of RFC 791, RFC 768,
 section 5 of RFC 7348 and clause 9 of IEEE 802.1Q.
 */
module EndToEnd {
  import opened Basics
  import opened Buffers
  import opened Redirects
  import opened AclMachine
  import AclNode
  import BypassNode
  import TunnelCache

  // ----- Layouts -----

  /** The outer IPv4, UDP and VXLAN headers. */
  datatype Outer = Outer(
    tos: byte, length: u16, id: u16, fragment: u16, ttl: byte, protocol: byte, headerSum: u16,
    src: Addr4, dst: Addr4,
    srcPort: u16, dstPort: u16, udpLength: u16, udpSum: u16,
    flags: byte, reserved: u16, reserved2: byte, vni: u16, vniLow: byte, reserved3: byte)

  /** A word in network order. */
  function Big16(w: u16): (r: seq<byte>)
    ensures |r| == 2
  {
    [w / 0x100, w % 0x100]
  }

  /** An IPv4 header without options. */
  function IpHeader(u: Outer): (r: seq<byte>)
    ensures |r| == 20
  {
    [0x45, u.tos] + Big16(u.length) + Big16(u.id) + Big16(u.fragment) + [u.ttl, u.protocol] + Big16(u.headerSum)
    + u.src + u.dst
  }

  function UdpHeader(u: Outer): (r: seq<byte>)
    ensures |r| == 8
  {
    Big16(u.srcPort) + Big16(u.dstPort) + Big16(u.udpLength) + Big16(u.udpSum)
  }

  function IpUdp(u: Outer): (r: seq<byte>)
    ensures |r| == 28
  {
    IpHeader(u) + UdpHeader(u)
  }

  function Vxlan(u: Outer): (r: seq<byte>)
    ensures |r| == 8
  {
    [u.flags] + Big16(u.reserved) + [u.reserved2] + Big16(u.vni) + [u.vniLow, u.reserved3]
  }

  /** An inner Ethernet frame that carries an IP packet, with at most one 802.1Q tag. */
  datatype Frame = Frame(
    macs: seq<byte>,
    tag: Option<seq<byte>>,
    head: seq<byte>,
    ip: Ip,
    rest: seq<byte>)

  predicate ValidFrame(f: Frame) {
    && |f.macs| == 12
    && (f.tag.Some? ==> |f.tag.value| == 2)
    && |f.head| == (if f.ip.Ip6? then 24 else 16)
  }

  function Address(ip: Ip): seq<byte> {
    match ip
    case Ip4(a) => a
    case Ip6(a) => a
  }

  function Ethernet(f: Frame): seq<byte> {
    f.macs
    + (if f.tag.Some? then [0x81, 0x00] + f.tag.value else [])
    + (if f.ip.Ip6? then [0x86, 0xDD] else [0x08, 0x00])
  }

  function Encode(f: Frame): seq<byte> { Ethernet(f) + (f.head + Address(f.ip) + f.rest) }

  ghost predicate Holds(b: Buffer, o: int, s: seq<byte>) { Has(b, o, |s|) && Bytes(b, o, |s|) == s }

  lemma HoldsPart(b: Buffer, o: int, p: seq<byte>, q: seq<byte>)
    requires Holds(b, o, p + q)
    ensures Holds(b, o, p) && Holds(b, o + |p|, q)
  {
    var m := b.mem[HEADROOM + o..HEADROOM + o + |p + q|];
    assert p == m[..|p|] && q == m[|p|..];
  }

  lemma HoldsByMemory(b: Buffer, b': Buffer, o: int, s: seq<byte>)
    requires Holds(b, o, s) && b.mem == b'.mem
    ensures Holds(b', o, s)
  {
  }

  // ----- The bypass node, by header fields -----

  /** The tunnel table's key for two address words and the packet's port, FIB and VNI. */
  function TunnelKey(u: Outer, fib: u32, hi: u32, lo: u32): TunnelCache.TunnelKey {
    TunnelCache.TunnelKey(hi, lo,
                          TunnelCache.PortFib(u.dstPort % 0x100 * 0x100 + u.dstPort / 0x100, fib),
                          Load32(Big16(u.vni) + [u.vniLow, u.reserved3]))
  }

  /** The packet belongs to the tunnel under `key` and is counted on interface `stats`: the key is
      that of its own addresses, or its destination is a group and the key is that of the
      group's local address. */
  ghost predicate Reaches(tunnels: TunnelCache.Tunnels, u: Outer, fib: u32, key: TunnelCache.TunnelKey, stats: u32) {
    var src, dst := Load32(u.src), Load32(u.dst);
    var own, group := TunnelKey(u, fib, dst, src), TunnelKey(u, fib, 0, dst);
    && u.flags == 0x08 && key in tunnels && tunnels[key].swIf != 0xFFFF_FFFF
    && (|| (key == own && stats == tunnels[key].swIf)
        || (&& own !in tunnels && 224 <= u.dst[0] <= 239 && group in tunnels
            && key == TunnelKey(u, fib, tunnels[group].local, src) && stats == tunnels[group].swIf))
  }

  /** UDP, and neither a later fragment nor one with more to come. */
  predicate IsWholeUdp(u: Outer) { u.protocol == 17 && u.fragment % 0x4000 == 0 }

  lemma IpLayout(u: Outer)
    ensures var s := IpHeader(u);
            && s[0] == 0x45 && s[9] == u.protocol
            && s[2..4] == Big16(u.length) && s[6..8] == Big16(u.fragment)
            && s[12..16] == u.src && s[16..20] == u.dst
  {
    hide Big16;
    var front := [0x45, u.tos] + Big16(u.length) + Big16(u.id) + Big16(u.fragment);
    var middle := front + [u.ttl, u.protocol] + Big16(u.headerSum);
    assert |front| == 8 && |middle| == 12;
    assert IpHeader(u)[..12] == middle && middle[..8] == front;
  }

  lemma UdpLayout(u: Outer)
    ensures var s := UdpHeader(u);
            s[2..4] == Big16(u.dstPort) && s[4..6] == Big16(u.udpLength) && s[6..8] == Big16(u.udpSum)
  {
    hide Big16;
  }

  lemma VxlanLayout(u: Outer)
    ensures Vxlan(u)[0] == u.flags && Vxlan(u)[4..8] == Big16(u.vni) + [u.vniLow, u.reserved3]
  {
    hide Big16;
  }

  /** Where the fields lie. */
  lemma Layout(u: Outer)
    ensures var s := IpUdp(u) + Vxlan(u);
            && s[0] == 0x45 && s[9] == u.protocol && s[28] == u.flags
            && s[2..4] == Big16(u.length) && s[6..8] == Big16(u.fragment)
            && s[12..16] == u.src && s[16..20] == u.dst
            && s[22..24] == Big16(u.dstPort) && s[24..26] == Big16(u.udpLength) && s[26..28] == Big16(u.udpSum)
            && s[32..36] == Big16(u.vni) + [u.vniLow, u.reserved3]
  {
    IpLayout(u);
    UdpLayout(u);
    VxlanLayout(u);
    hide Big16, IpHeader, UdpHeader, Vxlan;
    var s := IpUdp(u) + Vxlan(u);
    assert s[22..24] == UdpHeader(u)[2..4] && s[24..26] == UdpHeader(u)[4..6] && s[26..28] == UdpHeader(u)[6..8];
    assert s[32..36] == Vxlan(u)[4..8];
    assert s[2..4] == IpHeader(u)[2..4] && s[6..8] == IpHeader(u)[6..8];
    assert s[12..16] == IpHeader(u)[12..16] && s[16..20] == IpHeader(u)[16..20];
  }

  lemma HoldsSlice(b: Buffer, s: seq<byte>, o: nat, n: nat)
    requires Holds(b, b.current, s) && o + n <= |s|
    ensures Has(b, b.current + o, n) && Bytes(b, b.current + o, n) == s[o..o + n]
  {
    var part, whole := Bytes(b, b.current + o, n), Bytes(b, b.current, |s|);
    forall k | 0 <= k < n
      ensures part[k] == whole[o + k]
    {
    }
  }

  lemma HoldsWord(b: Buffer, s: seq<byte>, o: nat, w: u16)
    requires BypassNode.Room(b) && Holds(b, b.current, s) && o + 2 <= |s| && o + 2 <= BypassNode.MAX_OUTER
    requires s[o..o + 2] == Big16(w)
    ensures BypassNode.Net16(b, o) == w && BypassNode.Host16(b, o) == w % 0x100 * 0x100 + w / 0x100
    ensures BypassNode.ByteAt(b, o) == w / 0x100 && BypassNode.ByteAt(b, o + 1) == w % 0x100
  {
    HoldsSlice(b, s, o, 2);
    var m := Bytes(b, b.current + o, 2);
    assert m[0] == BypassNode.ByteAt(b, o) && m[1] == BypassNode.ByteAt(b, o + 1);
    assert m[0] == w / 0x100 && m[1] == w % 0x100 && w == w / 0x100 * 0x100 + w % 0x100;
  }

  lemma HoldsByte(b: Buffer, s: seq<byte>, o: nat)
    requires BypassNode.Room(b) && Holds(b, b.current, s) && o < |s| && o < BypassNode.MAX_OUTER
    ensures BypassNode.ByteAt(b, o) == s[o]
  {
    assert Bytes(b, b.current, |s|)[o] == BypassNode.ByteAt(b, o);
  }

  lemma FieldsOf(env: BypassNode.Env, b: Buffer, u: Outer)
    requires BypassNode.Room(b) && Holds(b, b.current, IpUdp(u) + Vxlan(u))
    ensures BypassNode.UdpOffset(b) == 20
    ensures BypassNode.Protocol(b) == BypassNode.PROTOCOL_UDP <==> IsWholeUdp(u)
    ensures Bytes(b, b.current + 16, 4) == u.dst
    ensures BypassNode.Net16(b, 2) == u.length && BypassNode.Net16(b, 24) == u.udpLength
    ensures BypassNode.Net16(b, 26) == u.udpSum
  {
    Layout(u);
    var s := IpUdp(u) + Vxlan(u);
    hide IpUdp, Vxlan, Holds, Big16, BypassNode.Net16, BypassNode.ByteAt, BypassNode.Host16;
    HoldsByte(b, s, 0);
    HoldsByte(b, s, 9);
    HoldsWord(b, s, 2, u.length);
    HoldsWord(b, s, 6, u.fragment);
    HoldsWord(b, s, 24, u.udpLength);
    HoldsWord(b, s, 26, u.udpSum);
    HoldsSlice(b, s, 16, 4);
    FragmentHalves(u.fragment);
  }

  lemma FragmentHalves(w: u16)
    ensures w % 0x4000 == 0 <==> w / 0x100 % 0x40 == 0 && w % 0x100 == 0
  {
  }

  lemma LookupOf(env: BypassNode.Env, b: Buffer, u: Outer)
    requires BypassNode.Room(b) && Holds(b, b.current, IpUdp(u) + Vxlan(u))
    ensures BypassNode.OuterOf(env, b)
         == TunnelCache.Outer(u.flags, u.dst, u.src, u.dstPort % 0x100 * 0x100 + u.dstPort / 0x100,
                              env.fibIndex(b), Load32(Big16(u.vni) + [u.vniLow, u.reserved3]))
  {
    assert BypassNode.UdpOffset(b) == 20 && Bytes(b, b.current + 16, 4) == u.dst by { FieldsOf(env, b, u); }
    Layout(u);
    var s := IpUdp(u) + Vxlan(u);
    hide IpUdp, Vxlan, Holds, Big16, Load32, BypassNode.ByteAt, BypassNode.Host16, BypassNode.UdpOffset, Bytes;
    HoldsByte(b, s, 28);
    HoldsWord(b, s, 22, u.dstPort);
    HoldsSlice(b, s, 12, 4);
    HoldsSlice(b, s, 32, 4);
  }

  /** The plain lookup finds the tunnel a packet belongs to, and nothing usable if there is none. */
  lemma PlainReaches(tunnels: TunnelCache.Tunnels, u: Outer, fib: u32, h: TunnelCache.Outer)
    requires h == TunnelCache.Outer(u.flags, u.dst, u.src, u.dstPort % 0x100 * 0x100 + u.dstPort / 0x100, fib,
                                    Load32(Big16(u.vni) + [u.vniLow, u.reserved3]))
    ensures var found := TunnelCache.Plain(tunnels, h);
            && (forall key, stats :: Reaches(tunnels, u, fib, key, stats) ==>
                  tunnels[key] == found.info && stats == found.stats)
            && (found.info.swIf != 0xFFFF_FFFF ==> exists key, stats :: Reaches(tunnels, u, fib, key, stats))
  {
    hide Load32, TunnelCache.PortFib;
    var found := TunnelCache.Plain(tunnels, h);
    var src, dst := Load32(u.src), Load32(u.dst);
    var own, group := TunnelKey(u, fib, dst, src), TunnelKey(u, fib, 0, dst);
    if found.info.swIf != NONE {
      assert Reaches(tunnels, u, fib, if own in tunnels then own else TunnelKey(u, fib, tunnels[group].local, src),
                     found.stats);
    }
  }

  /** Where the node sends a terminated packet: tunterm-acl if its UDP length fits and its checksum
      is absent or right, else to be dropped. */
  predicate IsSound(env: BypassNode.Env, b: Buffer, u: Outer) {
    u.udpLength <= u.length && (u.udpSum == 0 || env.checksumKnownGood(b) || env.checksumIsGood(b))
  }

  /** A packet through the bypass node, by its header fields.  It is terminated exactly when it is
      whole UDP for a local VTEP and belongs to a tunnel; it then starts at its VXLAN header.
      Otherwise it stays on the feature arc as it came. */
  lemma BypassByFields(env: BypassNode.Env, b: Buffer, u: Outer)
    requires BypassNode.Room(b) && Holds(b, b.current, IpUdp(u) + Vxlan(u))
    ensures var sent, fib := BypassNode.Judge(env, b), env.fibIndex(b);
            && (IsWholeUdp(u) ==> forall key, stats :: Reaches(env.tunnels, u, fib, key, stats) ==>
                  && sent.stats == stats
                  && (env.isLocalVtep(fib, u.dst) ==>
                        && sent.b == Advance(b.(error := sent.b.error), 28)
                        && (sent.b.error == 0 <==> IsSound(env, b, u))
                        && sent.next == if IsSound(env, b, u) then TUNTERM_ACL else DROP))
            && (|| !IsWholeUdp(u) || !env.isLocalVtep(fib, u.dst)
                || (forall key, stats :: !Reaches(env.tunnels, u, fib, key, stats)) ==>
                  sent.b == b && sent.next == env.featureNext(b))
  {
    FieldsOf(env, b, u);
    LookupOf(env, b, u);
    PlainReaches(env.tunnels, u, env.fibIndex(b), BypassNode.OuterOf(env, b));
    hide BypassNode.OuterOf, TunnelCache.Plain, Reaches, IpUdp, Vxlan, Holds, BypassNode.Net16, BypassNode.UdpOffset,
         BypassNode.Protocol, IsWholeUdp;
  }

  /** The place of the next nodes in the two registrations. */
  const DROP: nat := 0
  const TUNTERM_ACL: nat := 2
  const VXLAN4_INPUT: nat := 1

  /** The words of the sample below, as they lie in memory. */
  lemma SampleWords()
    ensures Load32([10, 1, 0, 1]) == 0x0100_010A && Load32([10, 1, 0, 2]) == 0x0200_010A
    ensures Load32([0, 0, 100, 0]) == 0x0064_0000
    ensures 4789 % 0x100 * 0x100 + 4789 / 0x100 == 0xB512
  {
  }

  /** A VXLAN packet from 10.1.0.2 to 10.1.0.1, port 4789, VNI 100, FIB 0, is looked up under these
      words. */
  lemma SampleKey(u: Outer)
    requires u.src == [10, 1, 0, 2] && u.dst == [10, 1, 0, 1] && u.dstPort == 4789
    requires u.vni == 0 && u.vniLow == 100 && u.reserved3 == 0
    ensures TunnelKey(u, 0, Load32(u.dst), Load32(u.src))
         == TunnelCache.TunnelKey(0x0100_010A, 0x0200_010A, 0xB512_0000, 0x0064_0000)
  {
    SampleWords();
    TunnelCache.VxlanPortInFibZero();
    hide Load32, TunnelCache.PortFib;
    assert Big16(0) + [100, 0] == [0, 0, 100, 0];
  }

  // ----- The inner frame -----

  /** The computed offsets find the destination address of every such frame that does not start
      in the headroom. */
  lemma InnerOfEncoded(b: Buffer, vxlan: seq<byte>, f: Frame)
    requires AclNode.Sized(b) && ValidFrame(f)
    requires |vxlan| == 8 && Holds(b, b.current, vxlan + Encode(f))
    ensures AclNode.TypeInBuffer(b) <==> b.current >= -8
    ensures AclNode.InnerOf(b) == AclNode.InnerIp(f.ip, 8 + |Ethernet(f)|)
    ensures Holds(b, b.current + 8 + |Ethernet(f)|, f.head + Address(f.ip) + f.rest)
  {
    AclNode.TypeInBufferIff(b);
    var o := b.current + 8;
    HoldsPart(b, b.current, vxlan, Encode(f));
    HoldsPart(b, o, Ethernet(f), f.head + Address(f.ip) + f.rest);
    var tag := if f.tag.Some? then [0x81, 0x00] + f.tag.value else [];
    var etype := if f.ip.Ip6? then [0x86, 0xDD] else [0x08, 0x00];
    HoldsPart(b, o, f.macs + tag, etype);
    HoldsPart(b, o, f.macs, tag);
    var p := o + |Ethernet(f)|;
    HoldsPart(b, p, f.head + Address(f.ip), f.rest);
    HoldsPart(b, p, f.head, Address(f.ip));
    if f.tag.Some? {
      HoldsPart(b, o + 12, [0x81, 0x00], f.tag.value);
    }
  }

  /** An inner frame of any other type, untagged or behind one tag, is not looked up. */
  lemma OtherTypesPass(acl: Acl, nNext: nat, b: Buffer, tagged: bool)
    requires AclNode.Sized(b)
    requires tagged <==> Bytes(b, b.current + 20, 2) == [0x81, 0x00]
    requires var o := if tagged then 24 else 20;
             Bytes(b, b.current + o, 2) != [0x08, 0x00] && Bytes(b, b.current + o, 2) != [0x86, 0xDD]
    ensures AclNode.Judge(acl, nNext, b) == AclNode.Verdict(b, VXLAN4_INPUT, AclNode.NotIp)
  {
  }

  // ----- Both nodes -----

  /** A whole and sound packet of a tunnel, for a local VTEP. */
  ghost predicate Carries(env: BypassNode.Env, b: Buffer, u: Outer, f: Frame) {
    && Has(b, b.current, 94) && |b.mem| <= 0x1_0000_0000
    && ValidFrame(f) && Holds(b, b.current, IpUdp(u) + (Vxlan(u) + Encode(f)))
    && IsWholeUdp(u) && IsSound(env, b, u)
    && env.isLocalVtep(env.fibIndex(b), u.dst)
    && exists key, stats :: Reaches(env.tunnels, u, env.fibIndex(b), key, stats)
  }

  /** Every such description has a buffer, at any position from the start of the headroom on. */
  lemma SomeBufferCarries(env: BypassNode.Env, fib: u32, u: Outer, f: Frame, lead: seq<byte>,
                          key: TunnelCache.TunnelKey, stats: u32)
    returns (b: Buffer)
    requires ValidFrame(f) && |lead| + |f.rest| <= 0x1000
    requires IsWholeUdp(u) && u.udpLength <= u.length && u.udpSum == 0
    requires env.isLocalVtep(fib, u.dst) && Reaches(env.tunnels, u, fib, key, stats)
    requires forall c: Buffer :: env.fibIndex(c) == fib
    ensures Carries(env, b, u, f) && b.current == |lead| - 128
  {
    hide Reaches, IsWholeUdp;
    var s := IpUdp(u) + (Vxlan(u) + Encode(f));
    b := Buffer(lead + s + seq(94, _ => 0), |lead| - 128, |s|, |lead| - 128, 0, 0, 0, 0, Cookie(false, 0, []));
    assert (lead + s + seq(94, _ => 0))[|lead|..|lead| + |s|] == s;
  }

  /** The packet leaves for the target, starting at its inner IP header. */
  ghost predicate Leaves(v: AclNode.Verdict, target: Target, nNext: nat, f: Frame) {
    && v.b.adj == target.dpo.index
    && v.next == (if target.dpo.next < nNext then target.dpo.next else VXLAN4_INPUT)
    && Holds(v.b, v.b.current, f.head)
    && Holds(v.b, v.b.current + (if f.ip.Ip6? then 24 else 16), Address(f.ip))
  }

  /** The bypass node hands the packet over at its VXLAN header. */
  lemma HandsOver(env: BypassNode.Env, b: Buffer, u: Outer, f: Frame)
    requires Carries(env, b, u, f)
    ensures BypassNode.Room(b)
    ensures var sent := BypassNode.Judge(env, b);
            && sent.next == TUNTERM_ACL
            && sent.b == Advance(b.(error := 0), 28)
            && AclNode.Sized(sent.b) && Holds(sent.b, sent.b.current, Vxlan(u) + Encode(f))
  {
    hide Encode, Reaches, IsWholeUdp, BypassNode.Judge, Holds;
    assert IpUdp(u) + (Vxlan(u) + Encode(f)) == IpUdp(u) + Vxlan(u) + Encode(f);
    HoldsPart(b, b.current, IpUdp(u) + Vxlan(u), Encode(f));
    HoldsPart(b, b.current, IpUdp(u), Vxlan(u) + Encode(f));
    BypassByFields(env, b, u);
    HoldsByMemory(b, BypassNode.Judge(env, b).b, b.current + 28, Vxlan(u) + Encode(f));
  }

  /** The ACL node on a packet handed over. */
  lemma AclByFields(acl: Acl, nNext: nat, b: Buffer, vxlan: seq<byte>, f: Frame)
    requires AclNode.Sized(b) && ValidFrame(f)
    requires |vxlan| == 8 && Holds(b, b.current, vxlan + Encode(f))
    ensures var a, r := AclNode.Attempt(acl, nNext, b), Redirect(acl, b.rx, f.ip);
            && (a.Some? <==> b.current >= -8)
            && (a.Some? ==>
                  && (a.value.outcome == AclNode.Redirected <==> r.Some?)
                  && (r.None? ==> a.value.b == b && a.value.next == VXLAN4_INPUT)
                  && (r.Some? ==> Leaves(a.value, r.value, nNext, f))
                  && End(a.value.b) == End(b) && a.value.b.mem == b.mem)
  {
    hide AclNode.InnerOf, Encode, Ethernet, Holds, Address, PatternOf, AclNode.TypeInBuffer;
    InnerOfEncoded(b, vxlan, f);
    var p := b.current + 8 + |Ethernet(f)|;
    HoldsPart(b, p, f.head + Address(f.ip), f.rest);
    HoldsPart(b, p, f.head, Address(f.ip));
    var v := AclNode.Judge(acl, nNext, b);
    HoldsByMemory(b, v.b, p, f.head);
    HoldsByMemory(b, v.b, p + |f.head|, Address(f.ip));
  }

  /** Such a packet through both nodes.  If its inner frame does not start in the headroom, it is
      redirected exactly when the rules attached to its ingress interface have its full inner
      destination; it then starts at the inner IP header.  Otherwise it goes to vxlan4-input
      positioned at its VXLAN header.  Its end and its bytes stay where they were. */
  lemma BothNodes(env: BypassNode.Env, acl: Acl, nNext: nat, b: Buffer, u: Outer, f: Frame)
    requires Carries(env, b, u, f)
    ensures BypassNode.Room(b)
    ensures var sent := BypassNode.Judge(env, b);
            && sent.next == TUNTERM_ACL
            && sent.b == Advance(b.(error := 0), 28)
            && var a, r := AclNode.Attempt(acl, nNext, sent.b), Redirect(acl, b.rx, f.ip);
            && (a.Some? <==> b.current >= -36)
            && (a.Some? ==>
                  && (a.value.outcome == AclNode.Redirected <==> r.Some?)
                  && (r.None? ==> a.value.b == sent.b && a.value.next == VXLAN4_INPUT)
                  && (r.Some? ==> Leaves(a.value, r.value, nNext, f))
                  && End(a.value.b) == End(b) && a.value.b.mem == b.mem)
  {
    HandsOver(env, b, u, f);
    hide Encode, Holds, Redirect, AclNode.Attempt, AclNode.Judge, BypassNode.Judge, Vxlan, IpUdp, Leaves, Reaches;
    AclByFields(acl, nNext, BypassNode.Judge(env, b).b, Vxlan(u), f);
  }

  /** In every state any run of the control plane reaches, every such packet whose inner frame does
      not start in the headroom is redirected exactly when a table of its inner family is
      attached to its ingress interface and the rules that table was last given have its inner
      destination, along the path of the last such rule, and to where the FIB resolves that
      path for the family now if it has not changed since event `n`, which filled the table or
      reached the rule, or since the start.  Every other one goes to vxlan4-input as the
      bypass node left it. */
  lemma PacketsFollowLastRule(
    env: BypassNode.Env, nNext: nat, b: Buffer, u: Outer, f: Frame,
    g: (Path, Payload) -> Dpo, run: seq<Event>, n: int)
    requires Carries(env, b, u, f) && LegalRun(Fresh(g), run)
    requires -1 <= n < |run| && forall k :: n < k < |run| ==> !run[k].FibChange?
    ensures BypassNode.Room(b)
    ensures var acl, given := After(Fresh(g), run), Given(Fresh(g), map[], run);
            var sent, t := BypassNode.Judge(env, b).b, TableFor(acl, b.rx, f.ip.Ip6?);
            && sent == Advance(b.(error := 0), 28)
            && var a := AclNode.Attempt(acl, nNext, sent);
            && (a.Some? <==> b.current >= -36)
            && (t.Some? ==> t.value in given)
            && var hit := t.Some? && LastRule(given[t.value], f.ip) >= 0;
            && (a.Some? && hit ==>
                  && a.value.outcome == AclNode.Redirected
                  && Redirect(acl, b.rx, f.ip).Some?
                  && var target := Redirect(acl, b.rx, f.ip).value;
                  && Good(target.path) == given[t.value][LastRule(given[t.value], f.ip)].path
                  && Leaves(a.value, target, nNext, f)
                  && ((|| n == -1
                       || run[n] == BackWalk(t.value, PatternOf(f.ip))
                       || (run[n].Create? && run[n].t == t.value)
                       || (run[n].Replace? && run[n].t == t.value && run[n].isV6 == f.ip.Ip6?)) ==>
                        target.dpo == acl.forwarding(target.path, if f.ip.Ip6? then UnicastIp6 else UnicastIp4)))
            && (a.Some? && !hit ==>
                  && a.value.outcome != AclNode.Redirected
                  && a.value.next == VXLAN4_INPUT && a.value.b == sent)
  {
    hide AclNode.Judge, AclNode.Attempt, BypassNode.Judge, Redirect, LegalRun, After, Given, Carries, LastRule,
         Leaves, PatternOf;
    BothNodes(env, After(Fresh(g), run), nNext, b, u, f);
    RedirectFollowsLastRule(g, run, b.rx, f.ip);
    RedirectFollowsFib(g, run, b.rx, f.ip, n);
  }
}
