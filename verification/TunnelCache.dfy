/**
 Finding the VXLAN tunnel of a packet through a cache of one entry.  The header fields are
 those of section 5 of RFC 7348; words are compared as they lie in memory.
 */
module TunnelCache {
  import opened Basics

  const FLAGS_I: byte := 0x08

  /** The two 64-bit key words, each as a high and a low half. */
  datatype TunnelKey = TunnelKey(hi0: u32, lo0: u32, hi1: u32, lo1: u32)

  /** Decapsulation data: an interface, and a word that is the local address of a multicast
      entry. */
  datatype DecapInfo = DecapInfo(swIf: u32, local: u32)

  type Tunnels = map<TunnelKey, DecapInfo>

  datatype Cache = Cache(key: TunnelKey, value: DecapInfo)

  /** What the lookup reads of a packet. */
  datatype Outer = Outer(flags: byte, dst: seq<byte>, src: seq<byte>, port: u16, fib: u32, vni: u32)

  ghost predicate WellFormed(h: Outer) { |h.dst| == 4 && |h.src| == 4 }

  const ALL_ONES := TunnelKey(NONE, NONE, NONE, NONE)
  const EMPTY := Cache(ALL_ONES, DecapInfo(NONE, NONE))
  const NOT_FOUND := DecapInfo(NONE, 0)
  const BAD_FLAGS := DecapInfo(NONE, 1)

  /** The high half of the second key word: the port above the FIB index, or-ed together. */
  function PortFib(port: u16, fib: u32): u32 {
    (((port as bv32) << 16) | (fib as bv32)) as int
  }

  /** Port 4789, as it lies in memory, in FIB 0. */
  lemma VxlanPortInFibZero()
    ensures PortFib(0xB512, 0) == 0xB512_0000
  {
    assert ((0xB512 as bv32) << 16) | (0 as bv32) == 0xB512_0000;
  }

  function KeyOf(h: Outer, hi0: u32, lo0: u32): TunnelKey
  {
    TunnelKey(hi0, lo0, PortFib(h.port, h.fib), h.vni)
  }

  predicate IsMulticast(a: seq<byte>)
    requires |a| == 4
  {
    0xE0 <= a[0] < 0xF0
  }

  /** The interface found and the interface to count against. */
  datatype Found = Found(info: DecapInfo, stats: u32)

  /** The lookup without a cache: the exact tunnel, else through the multicast entry. */
  function Plain(tunnels: Tunnels, h: Outer): Found
    requires WellFormed(h)
  {
    var dst, src := Load32(h.dst), Load32(h.src);
    var exact, group := KeyOf(h, dst, src), KeyOf(h, 0, dst);
    if h.flags != FLAGS_I then Found(BAD_FLAGS, NONE)
    else if exact in tunnels then Found(tunnels[exact], tunnels[exact].swIf)
    else if !IsMulticast(h.dst) || group !in tunnels then Found(NOT_FOUND, NONE)
    else
      var unicast := KeyOf(h, tunnels[group].local, src);
      if unicast in tunnels then Found(tunnels[unicast], tunnels[group].swIf) else Found(NOT_FOUND, NONE)
  }

  /** The cache holds what the table holds, or is as initialised. */
  ghost predicate Fresh(tunnels: Tunnels, cache: Cache) {
    cache == EMPTY || (cache.key in tunnels && tunnels[cache.key] == cache.value)
  }

  ghost predicate Agree(f: Found, g: Found) { f.info.swIf == g.info.swIf && f.stats == g.stats }

  /** No tunnel hides behind the key the cache is initialised with. */
  predicate NoTrap(tunnels: Tunnels) {
    ALL_ONES in tunnels ==> tunnels[ALL_ONES].swIf == NONE
  }

  /** What the cached lookup returns and leaves in the cache. */
  function Cached(tunnels: Tunnels, cache: Cache, h: Outer): (Found, Cache)
    requires WellFormed(h)
  {
    var exact := KeyOf(h, Load32(h.dst), Load32(h.src));
    if h.flags != FLAGS_I then (Found(BAD_FLAGS, NONE), cache)
    else if exact == cache.key then (Found(cache.value, cache.value.swIf), cache)
    else (Plain(tunnels, h), if exact in tunnels then Cache(exact, tunnels[exact]) else cache)
  }

  method FindTunnel(tunnels: Tunnels, cache: Cache, h: Outer) returns (info: DecapInfo, stats: u32, cache': Cache)
    requires WellFormed(h)
    ensures (Found(info, stats), cache') == Cached(tunnels, cache, h)
  {
    stats, cache' := NONE, cache;
    if h.flags != FLAGS_I {
      return BAD_FLAGS, stats, cache';
    }
    var dst, src := Load32(h.dst), Load32(h.src);
    var key := KeyOf(h, dst, src);
    if key == cache.key {
      return cache.value, cache.value.swIf, cache';
    }
    if key in tunnels {
      return tunnels[key], tunnels[key].swIf, Cache(key, tunnels[key]);
    }
    if !IsMulticast(h.dst) {
      return NOT_FOUND, stats, cache';
    }
    key := key.(hi0 := 0, lo0 := dst);
    if key !in tunnels {
      return NOT_FOUND, stats, cache';
    }
    var group := tunnels[key];
    key := key.(hi0 := group.local, lo0 := src);
    if key !in tunnels {
      return NOT_FOUND, stats, cache';
    }
    return tunnels[key], group.swIf, cache';
  }

  /** An all-ones destination is not a multicast group. */
  lemma AllOnesIsNotMulticast(a: seq<byte>)
    requires |a| == 4 && Load32(a) == NONE
    ensures !IsMulticast(a)
  {
  }

  /** One lookup through a fresh cache gives what the plain lookup gives, and keeps it fresh. */
  lemma CachedAgrees(tunnels: Tunnels, cache: Cache, h: Outer)
    requires WellFormed(h) && Fresh(tunnels, cache) && NoTrap(tunnels)
    ensures Agree(Cached(tunnels, cache, h).0, Plain(tunnels, h))
    ensures Fresh(tunnels, Cached(tunnels, cache, h).1)
  {
    if Load32(h.dst) == NONE {
      AllOnesIsNotMulticast(h.dst);
    }
  }

  /** A packet whose key is all ones. */
  function TrapPacket(): (h: Outer)
    ensures WellFormed(h) && h.flags == FLAGS_I
  {
    Outer(FLAGS_I, [0xFF, 0xFF, 0xFF, 0xFF], [0xFF, 0xFF, 0xFF, 0xFF], 0xFFFF, NONE, NONE)
  }

  lemma TrapPacketIsAllOnes()
    ensures KeyOf(TrapPacket(), NONE, NONE) == ALL_ONES
  {
    assert ((0xFFFF as bv32) << 16) | (0xFFFF_FFFF as bv32) == 0xFFFF_FFFF;
  }

  /** A freshly initialised cache agrees with the plain lookup on every packet exactly when no
      usable tunnel has the all-ones key. */
  lemma CacheIsTransparentIff(tunnels: Tunnels)
    ensures NoTrap(tunnels) <==>
            forall h :: WellFormed(h) ==> Agree(Cached(tunnels, EMPTY, h).0, Plain(tunnels, h))
  {
    if NoTrap(tunnels) {
      forall h | WellFormed(h)
        ensures Agree(Cached(tunnels, EMPTY, h).0, Plain(tunnels, h))
      {
        CachedAgrees(tunnels, EMPTY, h);
      }
    } else {
      TrapPacketIsAllOnes();
      assert !Agree(Cached(tunnels, EMPTY, TrapPacket()).0, Plain(tunnels, TrapPacket()));
    }
  }
}
