/**
 The punt path's cookie: sonic-ext-capture remembers the ingress interface and the raw outer
 VLAN tag of a frame, and sonic_ext_redirect_to_ingress_tap rebuilds the frame as it was on
 the wire and aims it at the ingress port's host tap.  Tag layout: clause 9 of IEEE 802.1Q.
 */
module WireFrame {
  import opened Basics
  import opened Buffers

  const MACS := 12
  const TAG := 4

  predicate IsTpid(t: seq<byte>) { t == [0x81, 0x00] || t == [0x88, 0xA8] || t == [0x91, 0x00] }

  /** The buffer's packet. */
  function Packet(b: Buffer): seq<byte>
    requires b.length >= 0 && Has(b, b.current, b.length)
  {
    Bytes(b, b.current, b.length)
  }

  function Patched(mem: seq<byte>, i: nat, s: seq<byte>): (r: seq<byte>)
    requires i + |s| <= |mem|
    ensures |r| == |mem|
  {
    mem[..i] + s + mem[i + |s|..]
  }

  function Write(b: Buffer, o: int, s: seq<byte>): Buffer
    requires Has(b, o, |s|)
  {
    b.(mem := Patched(b.mem, HEADROOM + o, s))
  }

  /** Does the frame that starts at `o` carry an outer tag? */
  predicate TaggedAt(b: Buffer, o: int)
    requires Has(b, o, MACS + 2)
  {
    IsTpid(Bytes(b, o + MACS, 2))
  }

  // ----- Capture -----

  function Captured(b: Buffer): Buffer
    requires Has(b, b.current, MACS + TAG)
  {
    var tag := if TaggedAt(b, b.current) then Bytes(b, b.current + MACS, TAG) else [];
    b.(cookie := Cookie(true, b.rx, tag))
  }

  /** Stamps one buffer. */
  method CaptureOne(b: Buffer) returns (b': Buffer)
    requires Has(b, b.current, MACS + TAG)
    ensures b' == Captured(b)
  {
    var cookie := b.cookie.(origRx := b.rx);
    var etype := Bytes(b, b.current + MACS, 2);
    cookie := cookie.(tag := if IsTpid(etype) then Bytes(b, b.current + MACS, TAG) else []);
    b' := b.(cookie := cookie.(valid := true));
  }

  /** Stamps every buffer of a frame, in place. */
  method CaptureNode(bufs: array<Buffer>) returns (captured: nat)
    requires forall k :: 0 <= k < bufs.Length ==> Has(bufs[k], bufs[k].current, MACS + TAG)
    modifies bufs
    ensures forall k :: 0 <= k < bufs.Length ==> bufs[k] == Captured(old(bufs[k]))
    ensures captured == bufs.Length
  {
    hide Captured;
    captured := 0;
    var i := 0;
    while i < bufs.Length
      invariant i == captured <= bufs.Length
      invariant forall k :: 0 <= k < i ==> bufs[k] == Captured(old(bufs[k]))
      invariant forall k :: i <= k < bufs.Length ==> bufs[k] == old(bufs[k])
    {
      bufs[i] := CaptureOne(bufs[i]);
      captured := captured + 1;
      i := i + 1;
    }
  }

  // ----- On the way -----

  /** What happens between capture and redirect: headers are stepped over or back to, and L2
      rewrite may pop the outer tag of a frame it is positioned at. */
  datatype Op = Move(n: int) | Pop

  predicate MayPop(b: Buffer) { b.current == b.l2 && Has(b, b.l2, MACS + TAG) && TaggedAt(b, b.l2) }

  /** The MAC addresses slide over the tag and the L2 offset follows. */
  function Popped(b: Buffer): Buffer
    requires MayPop(b)
  {
    Advance(Write(b, b.l2 + TAG, Bytes(b, b.l2, MACS)), TAG).(l2 := b.l2 + TAG)
  }

  predicate MayTravel(b: Buffer, ops: seq<Op>)
    decreases ops
  {
    ops == [] || match ops[0]
      case Move(n) => MayTravel(Advance(b, n), ops[1..])
      case Pop => MayPop(b) && MayTravel(Popped(b), ops[1..])
  }

  function Traveled(b: Buffer, ops: seq<Op>): Buffer
    requires MayTravel(b, ops)
    decreases ops
  {
    if ops == [] then b
    else match ops[0]
      case Move(n) => Traveled(Advance(b, n), ops[1..])
      case Pop => Traveled(Popped(b), ops[1..])
  }

  function Pops(ops: seq<Op>): nat {
    if ops == [] then 0 else (if ops[0] == Pop then 1 else 0) + Pops(ops[1..])
  }

  // ----- Redirect -----

  datatype SwInterface = Main | Sub(sup: nat)

  /** Interfaces, and the host tap of each port that has one. */
  datatype Ports = Ports(interfaces: map<nat, SwInterface>, hostTap: map<nat, nat>)

  /** The port an interface rides on. */
  function PortOf(ports: Ports, i: nat): nat
    requires i in ports.interfaces
  {
    match ports.interfaces[i] case Main => i case Sub(sup) => sup
  }

  /** The host tap of the port a packet came in on, unless it is the excluded one. */
  function TapFor(ports: Ports, origRx: nat, excluded: nat): Option<nat> {
    if origRx !in ports.interfaces then None
    else
      var phy := PortOf(ports, origRx);
      if phy in ports.hostTap && ports.hostTap[phy] != excluded then Some(ports.hostTap[phy]) else None
  }

  /** The frame at its L2 header again, with the captured tag pushed back if it is gone. */
  function Restored(b: Buffer): Buffer
    requires Has(b, b.l2, MACS + 2) && (|b.cookie.tag| == 0 || |b.cookie.tag| == TAG)
  {
    var b1 := Advance(b, b.l2 - b.current);
    if b.cookie.tag != [] && b1.current >= TAG && !TaggedAt(b1, b1.current) then
      var b2 := Advance(b1, -TAG);
      var b3 := Write(b2, b2.current, Bytes(b1, b1.current, MACS));
      Write(b3, b3.current + MACS, b.cookie.tag).(l2 := b.l2 - TAG)
    else b1
  }

  method RedirectToIngressTap(ports: Ports, b: Buffer, origRx: nat, excluded: nat)
    returns (ok: bool, b': Buffer, pushed: seq<byte>)
    requires Has(b, b.l2, MACS + 2) && (|b.cookie.tag| == 0 || |b.cookie.tag| == TAG)
    ensures ok <==> TapFor(ports, origRx, excluded).Some?
    ensures !ok ==> b' == b && pushed == []
    ensures ok ==>
              && b' == Restored(b).(cookie := b.cookie.(valid := false), tx := TapFor(ports, origRx, excluded).value)
              && pushed == if b'.l2 == b.l2 then [] else b.cookie.tag
  {
    hide Patched, IsTpid;
    ok, b', pushed := false, b, [];
    if origRx !in ports.interfaces {
      return;
    }
    var swo := ports.interfaces[origRx];
    var phy := if swo.Sub? then swo.sup else origRx;
    if phy !in ports.hostTap {
      return;
    }
    var tap := ports.hostTap[phy];
    if tap == excluded {
      return;
    }
    var tag := b.cookie.tag;
    b' := b'.(cookie := b.cookie.(valid := false));
    b' := Advance(b', b.l2 - b.current);
    if tag != [] && b'.current >= TAG {
      var etype := Bytes(b', b'.current + MACS, 2);
      if !IsTpid(etype) {
        var macs := Bytes(b', b'.current, MACS);
        b' := Advance(b', -TAG);
        b' := Write(b', b'.current, macs);
        b' := Write(b', b'.current + MACS, tag);
        b' := b'.(l2 := b'.l2 - TAG);
        pushed := tag;
      }
    }
    b' := b'.(tx := tap);
    ok := true;
  }

  // ----- Round trip -----

  /** A frame as ethernet-input hands it on: captured, its L2 offset recorded. */
  function Ingress(b: Buffer): Buffer
    requires Has(b, b.current, MACS + TAG)
  {
    Captured(b).(l2 := b.current)
  }

  /** The memory once the outer tag of the frame at `o` is popped. */
  function Slid(mem: seq<byte>, i: nat): seq<byte>
    requires i + MACS + TAG <= |mem|
  {
    Patched(mem, i + TAG, mem[i..i + MACS])
  }

  /** The buffer `b` after ingress and travel, with its tag popped or not. */
  ghost predicate Trace(b: Buffer, c: Buffer, popped: bool)
    requires Has(b, b.current, MACS + TAG)
  {
    && End(c) == End(b)
    && c.cookie == Ingress(b).cookie
    && c.l2 == b.current + (if popped then TAG else 0)
    && c.mem == (if popped then Slid(b.mem, HEADROOM + b.current) else b.mem)
    && (popped ==> TaggedAt(b, b.current))
  }

  /** Until the first pop nothing but the position changes; the pop slides the addresses. */
  lemma {:induction false} TravelLeavesTrace(b: Buffer, c: Buffer, ops: seq<Op>, popped: bool)
    requires Has(b, b.current, MACS + TAG) && Trace(b, c, popped)
    requires MayTravel(c, ops) && Pops(ops) <= if popped then 0 else 1
    ensures Trace(b, Traveled(c, ops), popped || Pops(ops) == 1)
    decreases ops
  {
    if ops != [] {
      match ops[0]
      case Move(n) =>
        TravelLeavesTrace(b, Advance(c, n), ops[1..], popped);
      case Pop =>
        TravelLeavesTrace(b, Popped(c), ops[1..], true);
    }
  }

  /** L2 rewrite may pop the tag of a frame just captured exactly when it is tagged with one of the
      three protocol identifiers. */
  lemma PopsTagged(b: Buffer)
    requires Has(b, b.current, 16)
    ensures MayPop(Ingress(b)) <==> Bytes(b, b.current + 12, 2) in {[0x81, 0x00], [0x88, 0xA8], [0x91, 0x00]}
  {
    assert Bytes(Ingress(b), b.current + 12, 2) == Bytes(b, b.current + 12, 2);
  }

  /** Is the frame tagged underneath its outer tag? */
  predicate DoubleTagged(b: Buffer)
    requires Has(b, b.current, MACS + TAG + 2)
  {
    TaggedAt(b, b.current) && IsTpid(Bytes(b, b.current + MACS + TAG, 2))
  }

  /** The redirected packet is the wire frame, byte for byte, exactly when no tag was popped, or
      the frame was captured at a non-negative offset and is not tagged underneath.  Its end
      never moves. */
  lemma RoundTrip(b: Buffer, ops: seq<Op>)
    requires b.length >= 0 && Has(b, b.current, b.length) && Has(b, b.current, MACS + TAG + 2)
    requires MayTravel(Ingress(b), ops) && Pops(ops) <= 1
    requires Pops(ops) == 1 ==> b.length >= MACS + TAG
    ensures var c := Traveled(Ingress(b), ops);
            && Has(c, c.l2, MACS + 2) && (|c.cookie.tag| == 0 || |c.cookie.tag| == TAG)
            && var r := Restored(c);
            && End(r) == End(b)
            && r.length >= 0 && Has(r, r.current, r.length)
            && (Packet(r) == Packet(b) <==>
                  || Pops(ops) == 0
                  || (b.current >= 0 && Bytes(b, b.current + 16, 2) !in {[0x81, 0x00], [0x88, 0xA8], [0x91, 0x00]}))
  {
    TravelLeavesTrace(b, Ingress(b), ops, false);
    RestoreFromTrace(b, Traveled(Ingress(b), ops), Pops(ops) == 1);
  }

  lemma RestoreFromTrace(b: Buffer, c: Buffer, popped: bool)
    requires b.length >= 0 && Has(b, b.current, b.length) && Has(b, b.current, MACS + TAG + 2)
    requires Trace(b, c, popped) && (popped ==> b.length >= MACS + TAG)
    ensures Has(c, c.l2, MACS + 2) && (|c.cookie.tag| == 0 || |c.cookie.tag| == TAG)
    ensures var r := Restored(c);
            && End(r) == End(b)
            && r.length >= 0 && Has(r, r.current, r.length)
            && (Packet(r) == Packet(b) <==> !popped || (b.current >= 0 && !DoubleTagged(b)))
  {
    hide Patched, Slid, IsTpid, Restored;
    if popped {
      RestorePopped(b, c);
    } else {
      RestoreUnpopped(b, c);
    }
  }

  lemma RestoreUnpopped(b: Buffer, c: Buffer)
    requires Has(b, b.current, MACS + TAG + 2) && Trace(b, c, false)
    ensures Has(c, c.l2, MACS + 2) && (|c.cookie.tag| == 0 || |c.cookie.tag| == TAG)
    ensures var r := Restored(c); r.current == b.current && r.length == b.length && r.mem == b.mem
  {
    hide Patched, IsTpid;
    assert Bytes(c, c.l2 + MACS, 2) == Bytes(b, b.current + MACS, 2);
  }

  lemma RestorePopped(b: Buffer, c: Buffer)
    requires b.length >= MACS + TAG && Has(b, b.current, b.length) && Has(b, b.current, MACS + TAG + 2)
    requires Trace(b, c, true)
    ensures Has(c, c.l2, MACS + 2) && |c.cookie.tag| == TAG
    ensures var r := Restored(c);
            if b.current >= 0 && !DoubleTagged(b)
            then r.current == b.current && r.length == b.length && r.mem == b.mem
            else r.current == b.current + TAG && r.length == b.length - TAG && |r.mem| == |b.mem|
  {
    hide Patched, Slid, IsTpid;
    var i := HEADROOM + b.current;
    SlideThenPush(b.mem, i);
    assert c.cookie.tag == b.mem[i + MACS..i + MACS + TAG];
    assert Bytes(c, c.l2, MACS) == b.mem[i..i + MACS];
    SameTail(c.mem, b.mem, i + TAG + MACS);
  }

  lemma SameTail(m: seq<byte>, n: seq<byte>, i: nat)
    requires i + 2 <= |m| == |n| && m[i..] == n[i..]
    ensures m[i..i + 2] == n[i..i + 2]
  {
    assert m[i..i + 2] == m[i..][..2] && n[i..i + 2] == n[i..][..2];
  }

  /** Sliding the addresses over a tag, then sliding them back and writing the tag, restores
      the memory. */
  lemma SlideThenPush(mem: seq<byte>, i: nat)
    requires i + MACS + TAG <= |mem|
    ensures var m, macs := Slid(mem, i), mem[i..i + MACS];
            && m[i + TAG..i + TAG + MACS] == macs
            && m[i + TAG + MACS..] == mem[i + TAG + MACS..]
            && Patched(Patched(m, i, macs), i + MACS, mem[i + MACS..i + MACS + TAG]) == mem
  {
    var m, macs := Slid(mem, i), mem[i..i + MACS];
    var p := Patched(m, i, macs);
    assert p[..i + MACS] == mem[..i + MACS];
    assert p[i + MACS + TAG..] == mem[i + MACS + TAG..];
  }
}
