/**
 The ip4-validate node: drops unicast packets with martian addresses or with a group MAC
 address (compare sections 5.3.4 and 5.3.7 of RFC 1812), four packets at a time and then
 one at a time, and keeps a histogram of the errors.
 */
module Ip4Validate {
  import opened Basics
  import opened Buffers

  const NEXT_DROP: nat := 0

  const VALID: nat := 0
  const SRC_LOOPBACK: nat := 1
  const SRC_MULTICAST: nat := 2
  const SRC_CLASS_E: nat := 3
  const SRC_UNSPECIFIED: nat := 4
  const SRC_LINK_LOCAL: nat := 5
  const DST_LOOPBACK: nat := 6
  const DST_LINK_LOCAL: nat := 7
  const L2_MCAST_BCAST: nat := 8
  const N_ERROR: nat := 9

  predicate Room(b: Buffer) { Has(b, b.current, 20) && Has(b, b.l2, 14) }

  function Src(b: Buffer): seq<byte>
    requires Room(b)
  {
    Bytes(b, b.current + 12, 4)
  }

  function Dst(b: Buffer): seq<byte>
    requires Room(b)
  {
    Bytes(b, b.current + 16, 4)
  }

  /** The group bit of the destination MAC address. */
  predicate IsGroupMac(b: Buffer)
    requires Room(b)
  {
    Bytes(b, b.l2, 6)[0] % 2 == 1
  }

  // ----- Prefixes, by dotted-quad bytes -----

  predicate IsLoopback(a: seq<byte>) requires |a| == 4 { a[0] == 127 }
  predicate IsMulticast(a: seq<byte>) requires |a| == 4 { 224 <= a[0] <= 239 }
  predicate IsClassE(a: seq<byte>) requires |a| == 4 { 240 <= a[0] <= 255 }
  predicate IsLinkLocal(a: seq<byte>) requires |a| == 4 { a[0] == 169 && a[1] == 254 }

  /** Which rule a packet breaks, the group MAC first, then the source, then the destination;
      multicast and the limited broadcast are not looked at. */
  function ErrorOf(b: Buffer): (e: nat)
    requires Room(b)
    ensures e < N_ERROR
  {
    var s, d := Src(b), Dst(b);
    if d == [255, 255, 255, 255] || IsMulticast(d) then VALID
    else if IsGroupMac(b) then L2_MCAST_BCAST
    else if IsLoopback(s) then SRC_LOOPBACK
    else if IsMulticast(s) then SRC_MULTICAST
    else if IsClassE(s) then SRC_CLASS_E
    else if s == [0, 0, 0, 0] then SRC_UNSPECIFIED
    else if IsLinkLocal(s) then SRC_LINK_LOCAL
    else if IsLoopback(d) then DST_LOOPBACK
    else if IsLinkLocal(d) then DST_LINK_LOCAL
    else VALID
  }

  function NextOf(feature: Buffer -> nat, b: Buffer): nat
    requires Room(b)
  {
    if ErrorOf(b) == VALID then feature(b) % 0x1_0000 else NEXT_DROP
  }

  /** The packet has this destination MAC address and these IPv4 addresses. */
  ghost predicate Addressed(b: Buffer, mac: seq<byte>, src: seq<byte>, dst: seq<byte>) {
    && |mac| == 6 && |src| == 4 && |dst| == 4
    && Has(b, b.current, 20) && Has(b, b.l2, 14)
    && Bytes(b, b.l2, 6) == mac && Bytes(b, b.current + 12, 8) == src + dst
  }

  lemma AddressesOf(b: Buffer, mac: seq<byte>, src: seq<byte>, dst: seq<byte>)
    requires Addressed(b, mac, src, dst)
    ensures Room(b) && Src(b) == src && Dst(b) == dst && (IsGroupMac(b) <==> mac[0] % 2 == 1)
  {
    assert Src(b) == Bytes(b, b.current + 12, 8)[..4] && Dst(b) == Bytes(b, b.current + 12, 8)[4..];
  }

  /** The error a packet is counted under, by its addresses.  Multicast and the limited broadcast
      are not looked at; then the MAC address decides, then the source, then the destination. */
  lemma ErrorIs(b: Buffer, mac: seq<byte>, src: seq<byte>, dst: seq<byte>)
    requires Addressed(b, mac, src, dst)
    ensures Room(b)
    ensures var e := ErrorOf(b);
            var unicast := !(224 <= dst[0] <= 239) && dst != [255, 255, 255, 255];
            var martian := src[0] == 127 || src[0] >= 224 || src == [0, 0, 0, 0] || (src[0] == 169 && src[1] == 254);
            && (e == 8 <==> unicast && mac[0] % 2 == 1)
            && (unicast && mac[0] % 2 == 0 ==>
                  && (src[0] == 127 ==> e == 1)
                  && (224 <= src[0] <= 239 ==> e == 2)
                  && (240 <= src[0] ==> e == 3)
                  && (src == [0, 0, 0, 0] ==> e == 4)
                  && (src[0] == 169 && src[1] == 254 ==> e == 5)
                  && (!martian && dst[0] == 127 ==> e == 6)
                  && (!martian && dst[0] == 169 && dst[1] == 254 ==> e == 7)
                  && (!martian && dst[0] != 127 && !(dst[0] == 169 && dst[1] == 254) ==> e == 0))
            && (!unicast ==> e == 0)
  {
    AddressesOf(b, mac, src, dst);
    hide Src, Dst, IsGroupMac;
  }

  /** Unless the feature arc itself leads to the drop node, a packet is dropped exactly when it
      is unicast and its MAC address is a group address, its source is not an ordinary
      unicast address, or its destination is loopback or link-local. */
  lemma DroppedIff(feature: Buffer -> nat, b: Buffer, mac: seq<byte>, src: seq<byte>, dst: seq<byte>)
    requires Addressed(b, mac, src, dst) && feature(b) % 0x1_0000 != 0
    ensures Room(b)
    ensures NextOf(feature, b) == 0 <==>
              && dst != [255, 255, 255, 255] && !(224 <= dst[0] <= 239)
              && (|| mac[0] % 2 == 1
                  || src[0] >= 224 || src[0] == 127 || (src[0] == 169 && src[1] == 254) || src == [0, 0, 0, 0]
                  || dst[0] == 127 || (dst[0] == 169 && dst[1] == 254))
    ensures NextOf(feature, b) != 0 ==> NextOf(feature, b) == feature(b) % 0x1_0000
  {
    AddressesOf(b, mac, src, dst);
    hide Src, Dst, IsGroupMac;
  }

  // ----- The code -----

  /** An address as the number the code shifts. */
  function Host32(a: seq<byte>): u32
    requires |a| == 4
  {
    a[0] as int * 0x100_0000 + a[1] as int * 0x1_0000 + a[2] as int * 0x100 + a[3] as int
  }

  /** Shifting right by 28, 24 and 16 bits reads the leading bytes. */
  lemma Shifts(a: seq<byte>)
    requires |a| == 4
    ensures Host32(a) / 0x100_0000 == a[0]
    ensures Host32(a) / 0x1_0000 == a[0] as int * 0x100 + a[1] as int
    ensures Host32(a) / 0x1000_0000 == a[0] as int / 0x10
    ensures Host32(a) == 0 <==> a == [0, 0, 0, 0]
    ensures Host32(a) == 0xFFFF_FFFF <==> a == [255, 255, 255, 255]
  {
    var rest := a[1] as int * 0x1_0000 + a[2] as int * 0x100 + a[3] as int;
    assert 0 <= rest < 0x100_0000 && Host32(a) == a[0] as int * 0x100_0000 + rest;
    var q, r := a[0] as int / 0x10, a[0] as int % 0x10;
    assert a[0] as int == q * 0x10 + r && 0 <= r < 0x10;
    assert Host32(a) == q * 0x1000_0000 + (r * 0x100_0000 + rest);
    assert 0 <= r * 0x100_0000 + rest < 0x1000_0000;
  }

  method ValidateX1(feature: Buffer -> nat, b: Buffer) returns (error: nat, next: nat)
    requires Room(b)
    ensures error == ErrorOf(b) && next == NextOf(feature, b)
  {
    var src, dst := Host32(Src(b)), Host32(Dst(b));
    Shifts(Src(b));
    Shifts(Dst(b));
    var onward := feature(b) % 0x1_0000;
    hide Host32;
    if dst == 0xFFFF_FFFF || dst / 0x1000_0000 == 0xE {
      return VALID, onward;
    }
    if Bytes(b, b.l2, 6)[0] % 2 == 1 {
      return L2_MCAST_BCAST, NEXT_DROP;
    }
    if src / 0x100_0000 == 127 {
      return SRC_LOOPBACK, NEXT_DROP;
    }
    if src / 0x1000_0000 == 0xE {
      return SRC_MULTICAST, NEXT_DROP;
    }
    if src / 0x1000_0000 == 0xF {
      return SRC_CLASS_E, NEXT_DROP;
    }
    if src == 0 {
      return SRC_UNSPECIFIED, NEXT_DROP;
    }
    if src / 0x1_0000 == 0xA9FE {
      return SRC_LINK_LOCAL, NEXT_DROP;
    }
    if dst / 0x100_0000 == 127 {
      return DST_LOOPBACK, NEXT_DROP;
    }
    if dst / 0x1_0000 == 0xA9FE {
      return DST_LINK_LOCAL, NEXT_DROP;
    }
    return VALID, onward;
  }

  // ----- Frames -----

  /** The error a packet is counted under. */
  function Fault(b: Buffer): int { if Room(b) then ErrorOf(b) else N_ERROR }

  /** The packets whose error is below `e`. */
  function Below(bs: seq<Buffer>, e: nat): nat {
    if e == 0 then 0 else Below(bs, e - 1) + Tally(bs, Fault, e - 1)
  }

  lemma {:induction false} BelowOfMore(bs: seq<Buffer>, e: nat)
    requires bs != []
    ensures Below(bs, e) == Below(bs[..|bs| - 1], e) + if Fault(bs[|bs| - 1]) < e then 1 else 0
  {
    if e > 0 {
      var n := |bs| - 1;
      BelowOfMore(bs, e - 1);
      assert bs == bs[..n] + [bs[n]];
      TallyMore(bs[..n], bs[n], Fault, e - 1);
    }
  }

  /** The histogram sums to the size of the frame. */
  lemma {:induction false} HistogramIsTotal(bs: seq<Buffer>)
    requires forall k :: 0 <= k < |bs| ==> Room(bs[k])
    ensures Below(bs, N_ERROR) == |bs|
    decreases |bs|
  {
    if bs == [] {
      BelowOfNone(N_ERROR);
    } else {
      HistogramIsTotal(bs[..|bs| - 1]);
      BelowOfMore(bs, N_ERROR);
    }
  }

  lemma {:induction false} BelowOfNone(e: nat)
    ensures Below([], e) == 0
  {
    if e > 0 {
      BelowOfNone(e - 1);
    }
  }

  /** The first `i` packets of a frame are entered in both arrays. */
  ghost predicate Sofar(feature: Buffer -> nat, bs: seq<Buffer>, i: nat, nexts: array<nat>, counts: array<nat>)
    reads nexts, counts
  {
    && (forall k :: 0 <= k < |bs| ==> Room(bs[k]))
    && nexts.Length == |bs| && i <= |bs| && counts.Length == N_ERROR
    && (forall k :: 0 <= k < i ==> nexts[k] == NextOf(feature, bs[k]))
    && (forall e :: 0 <= e < N_ERROR ==> counts[e] == Tally(bs[..i], Fault, e))
  }

  method Enter(feature: Buffer -> nat, bs: seq<Buffer>, i: nat, nexts: array<nat>, counts: array<nat>)
    requires Sofar(feature, bs, i, nexts, counts) && i < |bs| && nexts != counts
    modifies nexts, counts
    ensures Sofar(feature, bs, i + 1, nexts, counts)
  {
    hide Room, NextOf, Tally;
    var error, next := ValidateX1(feature, bs[i]);
    nexts[i] := next;
    counts[error] := counts[error] + 1;
    assert bs[..i + 1] == bs[..i] + [bs[i]] && Fault(bs[i]) == error;
    forall e | 0 <= e < N_ERROR
      ensures counts[e] == Tally(bs[..i + 1], Fault, e)
    {
      TallyMore(bs[..i], bs[i], Fault, e);
    }
  }

  lemma NoneEntered(feature: Buffer -> nat, bs: seq<Buffer>, nexts: array<nat>, counts: array<nat>)
    requires forall k :: 0 <= k < |bs| ==> Room(bs[k])
    requires nexts.Length == |bs| && counts.Length == N_ERROR && forall e :: 0 <= e < N_ERROR ==> counts[e] == 0
    ensures Sofar(feature, bs, 0, nexts, counts)
  {
    hide Room, NextOf, Fault;
  }

  lemma AllEntered(feature: Buffer -> nat, bs: seq<Buffer>, nexts: array<nat>, counts: array<nat>)
    requires Sofar(feature, bs, |bs|, nexts, counts)
    ensures nexts.Length == |bs| && counts.Length == N_ERROR && forall k :: 0 <= k < |bs| ==> Room(bs[k])
    ensures forall k :: 0 <= k < |bs| ==> nexts[k] == NextOf(feature, bs[k])
    ensures forall e :: 0 <= e < N_ERROR ==> counts[e] == Tally(bs, Fault, e)
    ensures Below(bs, N_ERROR) == |bs|
  {
    hide Room, NextOf, Fault, Below;
    assert bs[..|bs|] == bs;
    HistogramIsTotal(bs);
  }

  /** Unrolled by four, then one by one: the next array and the histogram are those of a
      packet-by-packet map, and the histogram sums to the frame. */
  method Node(feature: Buffer -> nat, bs: seq<Buffer>) returns (nexts: array<nat>, counts: array<nat>)
    requires forall k :: 0 <= k < |bs| ==> Room(bs[k])
    ensures nexts.Length == |bs| && counts.Length == N_ERROR
    ensures forall k :: 0 <= k < |bs| ==> nexts[k] == NextOf(feature, bs[k])
    ensures forall e :: 0 <= e < N_ERROR ==> counts[e] == Tally(bs, Fault, e)
    ensures Below(bs, N_ERROR) == |bs|
  {
    nexts, counts := new nat[|bs|], new nat[N_ERROR](_ => 0);
    NoneEntered(feature, bs, nexts, counts);
    hide Sofar, Room, ErrorOf, NextOf, Tally, Fault, Below;
    var i := 0;
    while |bs| - i >= 4
      invariant nexts != counts && i <= |bs|
      invariant Sofar(feature, bs, i, nexts, counts)
    {
      Enter(feature, bs, i, nexts, counts);
      Enter(feature, bs, i + 1, nexts, counts);
      Enter(feature, bs, i + 2, nexts, counts);
      Enter(feature, bs, i + 3, nexts, counts);
      i := i + 4;
    }
    while i < |bs|
      invariant nexts != counts && i <= |bs|
      invariant Sofar(feature, bs, i, nexts, counts)
    {
      Enter(feature, bs, i, nexts, counts);
      i := i + 1;
    }
    AllEntered(feature, bs, nexts, counts);
  }
}
