/**
 The tunterm-acl node.  The bypass node hands over packets positioned at the VXLAN header;
 this node finds the inner destination address at computed offsets, looks it up in the
 classifier table attached to the ingress interface for that family, and either redirects
 the inner packet or passes the packet on to vxlan4-input.
 */
module AclNode {
  import opened Basics
  import opened Buffers
  import opened Redirects
  import opened AclMachine
  import opened Attachment
  import opened ControlPlane

  const NEXT_VXLAN4_INPUT: nat := 1

  const VXLAN_HEADER := 8
  const ETHERNET_HEADER := 14
  const VLAN_HEADER := 4
  const ETHERTYPE_OFFSET := 12
  const MAX_INNER := 66  // VXLAN, Ethernet, one tag and an IPv6 header

  const ETHERTYPE_VLAN: seq<byte> := [0x81, 0x00]
  const ETHERTYPE_IP4: seq<byte> := [0x08, 0x00]
  const ETHERTYPE_IP6: seq<byte> := [0x86, 0xDD]

  datatype Outcome = Redirected | NoTable | NotSupported | NotIp | NoMatch

  datatype Verdict = Verdict(b: Buffer, next: nat, outcome: Outcome)

  // ----- What the node should do -----

  /** The inner packet of a buffer positioned at the VXLAN header. */
  datatype Inner = Other | InnerIp(ip: Ip, headers: nat)

  function IpAt(b: Buffer, etherType: seq<byte>, headers: nat): Inner
    requires Has(b, b.current, MAX_INNER) && headers <= VXLAN_HEADER + ETHERNET_HEADER + VLAN_HEADER
  {
    if etherType == ETHERTYPE_IP6 then InnerIp(Ip6(Bytes(b, b.current + headers + 24, 16)), headers)
    else if etherType == ETHERTYPE_IP4 then InnerIp(Ip4(Bytes(b, b.current + headers + 16, 4)), headers)
    else Other
  }

  function InnerOf(b: Buffer): Inner
    requires Has(b, b.current, MAX_INNER)
  {
    var headers := VXLAN_HEADER + ETHERNET_HEADER;
    if Bytes(b, b.current + headers - 2, 2) == ETHERTYPE_VLAN
    then IpAt(b, Bytes(b, b.current + headers + 2, 2), headers + VLAN_HEADER)
    else IpAt(b, Bytes(b, b.current + headers - 2, 2), headers)
  }

  function Passed(b: Buffer, o: Outcome): Verdict { Verdict(b, NEXT_VXLAN4_INPUT, o) }

  /** A packet is redirected exactly when the rules attached to its ingress interface say so;
      it then starts at the inner IP header.  `nNext` is how many next nodes there are. */
  function Judge(acl: Acl, nNext: nat, b: Buffer): Verdict
    requires Has(b, b.current, MAX_INNER)
  {
    match InnerOf(b)
    case Other => Passed(b, NotIp)
    case InnerIp(ip, headers) =>
      if TableFor(acl, b.rx, ip.Ip6?) == None then Passed(b, NoTable)
      else match Redirect(acl, b.rx, ip)
        case None => Passed(b, NoMatch)
        case Some(target) =>
          Verdict(Advance(b, headers).(adj := target.dpo.index),
                  if target.dpo.next < nNext then target.dpo.next else NEXT_VXLAN4_INPUT,
                  Redirected)
  }

  // ----- What it does -----

  /** The inner Ethernet header's offset, kept in an unsigned word.  The type field is then
      reached with a wider sum, which does not wrap back. */
  function EtherOffset(b: Buffer): u32 { U32(b.current + VXLAN_HEADER) }

  /** Does the node read the inner type inside the buffer? */
  predicate TypeInBuffer(b: Buffer) { Has(b, EtherOffset(b) + ETHERTYPE_OFFSET, 2) }

  /** The buffer has memory for the headers the node looks for, and is no larger than 4 GiB. */
  predicate Sized(b: Buffer) { Has(b, b.current, MAX_INNER) && |b.mem| <= 0x1_0000_0000 }

  /** The node reads the inner type inside the buffer exactly when the inner frame does not
      start in the headroom. */
  lemma TypeInBufferIff(b: Buffer)
    requires Sized(b)
    ensures TypeInBuffer(b) <==> b.current >= -8
    ensures TypeInBuffer(b) ==> EtherOffset(b) == b.current + 8
  {
  }

  /** A packet whose inner frame starts four bytes into the headroom is lost to the node although
      its headers are all in memory. */
  lemma HeadroomIsLost(b: Buffer)
    requires b.mem == seq(256, _ => 0) && b.current == -12
    ensures Sized(b) && EtherOffset(b) == 0xFFFF_FFFC && !TypeInBuffer(b)
  {
  }

  /** What becomes of a packet: nothing can be said once a read leaves the buffer. */
  function Attempt(acl: Acl, nNext: nat, b: Buffer): Option<Verdict>
    requires Has(b, b.current, MAX_INNER)
  {
    if TypeInBuffer(b) then Some(Judge(acl, nNext, b)) else None
  }

  /** Sessions say what rules say. */
  lemma SessionsFollowRules(pool: Pool, index: Index, tables: Tables, children: Children, t: u32, m: seq<byte>)
    requires Consistent(pool, index, tables, children) && t in tables
    ensures m in tables[t].sessions <==> m in RulesOf(pool, index, tables)[t]
    ensures m in tables[t].sessions ==>
              var dpo, e := RulesOf(pool, index, tables)[t][m].dpo, tables[t].sessions[m];
              e.next == dpo.next && e.metadata == dpo.index && e.action == SetMetadata
  {
    if m in tables[t].sessions {
      LiveEntry(pool, index, tables, children, index[Key(m, t)]);
    }
  }

  /** The sixteen bytes looked up start with the address. */
  predicate Starts(window: seq<byte>, ip: Ip)
    requires |window| == VECTOR_SIZE
  {
    match ip case Ip4(a) => window[..4] == a case Ip6(a) => window == a
  }

  lemma MaskedAddress(ip: Ip, window: seq<byte>)
    requires |window| == VECTOR_SIZE
    requires Starts(window, ip)
    ensures Masked(MaskOf(ip.Ip6?), window) == PatternOf(ip)
  {
    var p, q := Masked(MaskOf(ip.Ip6?), window), PatternOf(ip);
    forall k | 0 <= k < VECTOR_SIZE
      ensures p[k] == q[k]
    {
      if ip.Ip4? && k < 4 {
        assert window[k] == window[..4][k];
      }
    }
  }

  method Lookup(acl: TuntermAcl, t: u32, window: seq<byte>, ghost ip: Ip) returns (r: Option<Session>)
    requires acl.Valid() && t in acl.store.tables && acl.isV6[t] == ip.Ip6?
    requires |window| == VECTOR_SIZE
    requires Starts(window, ip)
    ensures r.Some? <==> PatternOf(ip) in acl.Abs().tables[t].rules
    ensures r.Some? ==>
              var dpo := acl.Abs().tables[t].rules[PatternOf(ip)].dpo;
              r.value.action == SetMetadata && r.value.next == dpo.next && r.value.metadata == dpo.index
  {
    ghost var s := acl.store;
    MaskedAddress(ip, window);
    SessionsFollowRules(s.pool, s.index, s.tables, s.children, t, PatternOf(ip));
    var table := acl.store.tables[t];
    var key := Masked(table.mask, window);
    r := if key in table.sessions then Some(table.sessions[key]) else None;
  }

  /** An interface the feature is enabled on indexes both slot vectors, and each slot names a
      live table of its family or nothing. */
  lemma SlotsInRange(acl: TuntermAcl, i: nat)
    requires acl.Valid() && i in acl.Abs().enabled
    ensures i < |acl.slotsV4| && i < |acl.slotsV6|
    ensures TableFor(acl.Abs(), i, false) == if acl.slotsV4[i] == NONE then None else Some(acl.slotsV4[i])
    ensures TableFor(acl.Abs(), i, true) == if acl.slotsV6[i] == NONE then None else Some(acl.slotsV6[i])
    ensures acl.slotsV4[i] != NONE ==> acl.slotsV4[i] in acl.store.tables && !acl.isV6[acl.slotsV4[i]]
    ensures acl.slotsV6[i] != NONE ==> acl.slotsV6[i] in acl.store.tables && acl.isV6[acl.slotsV6[i]]
  {
    hide Consistent, RulesOf, View, PayloadsAgree;
    assert Count(acl.bypass, i) > 0;
    SlotIsSet(acl.slotsV4, i);
    SlotIsSet(acl.slotsV6, i);
    assert SetAt(acl.slotsV4, i) <==> acl.slotsV4[i] != NONE;
    assert SetAt(acl.slotsV6, i) <==> acl.slotsV6[i] != NONE;
  }

  /** Where the offset arithmetic finds an inner destination address. */
  datatype Located = Nowhere | At(isV6: bool, tagged: bool, dip: u32)

  ghost predicate Locates(b: Buffer, l: Located)
    requires Sized(b)
  {
    match l
    case Nowhere => InnerOf(b) == Other
    case At(isV6, tagged, dip) =>
      && InnerOf(b).InnerIp? && InnerOf(b).ip.Ip6? == isV6
      && InnerOf(b).headers == VXLAN_HEADER + ETHERNET_HEADER + (if tagged then VLAN_HEADER else 0)
      && Has(b, dip, VECTOR_SIZE) && Starts(Bytes(b, dip, VECTOR_SIZE), InnerOf(b).ip)
  }

  /** The offsets, each cut to an unsigned word; nothing if the type is read outside the buffer. */
  method Locate(b: Buffer) returns (l: Option<Located>)
    requires Sized(b)
    ensures l.Some? <==> TypeInBuffer(b)
    ensures l.Some? ==> Locates(b, l.value)
  {
    hide U32;
    TypeInBufferIff(b);
    var etherOffset := U32(b.current + VXLAN_HEADER);
    var ipOffset := U32(etherOffset + ETHERNET_HEADER);
    if !Has(b, etherOffset + ETHERTYPE_OFFSET, 2) {
      return None;
    }
    var etype := Bytes(b, etherOffset + ETHERTYPE_OFFSET, 2);
    var tagged := false;
    if etype == ETHERTYPE_VLAN {
      etype := Bytes(b, etherOffset + ETHERTYPE_OFFSET + VLAN_HEADER, 2);
      tagged := true;
      ipOffset := U32(ipOffset + VLAN_HEADER);
    }
    if etype == ETHERTYPE_IP6 {
      l := Some(At(true, tagged, U32(ipOffset + 40 - 16)));
    } else if etype == ETHERTYPE_IP4 {
      var dip := U32(ipOffset + 20 - 4);
      assert Bytes(b, dip, VECTOR_SIZE)[..4] == Bytes(b, dip, 4);
      l := Some(At(false, tagged, dip));
    } else {
      l := Some(Nowhere);
    }
  }

  /** One packet through the node, or nothing if it reads outside the buffer. */
  method Classify(acl: TuntermAcl, b: Buffer, nNext: nat) returns (v: Option<Verdict>)
    requires acl.Valid() && b.rx in acl.Abs().enabled && Sized(b)
    ensures v == Attempt(acl.Abs(), nNext, b)
    ensures v.Some? <==> b.current >= -VXLAN_HEADER
  {
    hide Consistent, RulesOf, View, PayloadsAgree, TablesAgree, SlotsLive, Bypassed, SlotsOf, EnabledOf, PatternOf,
         InnerOf, U32, Starts, TypeInBuffer;
    SlotsInRange(acl, b.rx);
    TypeInBufferIff(b);
    var l := Locate(b);
    if l.None? {
      return None;
    }
    if l.value.Nowhere? {
      return Some(Passed(b, NotIp));
    }
    var table := if l.value.isV6 then acl.slotsV6[b.rx] else acl.slotsV4[b.rx];
    if table == NONE {
      return Some(Passed(b, NoTable));
    }
    var e := Lookup(acl, table, Bytes(b, l.value.dip, VECTOR_SIZE), InnerOf(b).ip);
    if e.None? {
      return Some(Passed(b, NoMatch));
    }
    if e.value.action != SetMetadata {
      return Some(Passed(b, NotSupported));
    }
    var b' := Advance(Advance(b, VXLAN_HEADER), ETHERNET_HEADER);
    if l.value.tagged {
      b' := Advance(b', VLAN_HEADER);
    }
    var next := if e.value.next < nNext then e.value.next else NEXT_VXLAN4_INPUT;
    v := Some(Verdict(b'.(adj := e.value.metadata), next, Redirected));
  }

  function OutcomeOf(v: Verdict): Outcome { v.outcome }

  /** The outcomes partition a frame, and no session of this plugin has another action. */
  lemma {:induction false} TalliesPartition(acl: Acl, nNext: nat, vs: seq<Verdict>, bs: seq<Buffer>)
    requires |vs| == |bs|
    requires forall k :: 0 <= k < |bs| ==> Has(bs[k], bs[k].current, MAX_INNER) && vs[k] == Judge(acl, nNext, bs[k])
    ensures Tally(vs, OutcomeOf, NotSupported) == 0
    ensures Tally(vs, OutcomeOf, Redirected) + Tally(vs, OutcomeOf, NoTable) + Tally(vs, OutcomeOf, NotIp)
          + Tally(vs, OutcomeOf, NoMatch) == |bs|
  {
    if vs != [] {
      TalliesPartition(acl, nNext, vs[..|vs| - 1], bs[..|vs| - 1]);
    }
  }

  datatype Counters = Counters(redirected: nat, noTable: nat, notSupported: nat, notIp: nat, noMatch: nat)

  function Counted(c: Counters, o: Outcome): Counters {
    match o
    case Redirected => c.(redirected := c.redirected + 1)
    case NoTable => c.(noTable := c.noTable + 1)
    case NotSupported => c.(notSupported := c.notSupported + 1)
    case NotIp => c.(notIp := c.notIp + 1)
    case NoMatch => c.(noMatch := c.noMatch + 1)
  }

  ghost predicate Matches(c: Counters, vs: seq<Verdict>) {
    && c.redirected == Tally(vs, OutcomeOf, Redirected) && c.noTable == Tally(vs, OutcomeOf, NoTable)
    && c.notSupported == Tally(vs, OutcomeOf, NotSupported) && c.notIp == Tally(vs, OutcomeOf, NotIp)
    && c.noMatch == Tally(vs, OutcomeOf, NoMatch)
  }

  lemma CountNone()
    ensures Matches(Counters(0, 0, 0, 0, 0), [])
  {
  }

  lemma MatchedTotal(c: Counters, acl: Acl, nNext: nat, vs: seq<Verdict>, bs: seq<Buffer>)
    requires |vs| == |bs| && Matches(c, vs)
    requires forall k :: 0 <= k < |bs| ==> Has(bs[k], bs[k].current, MAX_INNER) && vs[k] == Judge(acl, nNext, bs[k])
    ensures c.notSupported == 0 && c.redirected + c.noTable + c.notIp + c.noMatch == |bs|
  {
    TalliesPartition(acl, nNext, vs, bs);
  }

  lemma CountOne(c: Counters, vs: seq<Verdict>, v: Verdict)
    requires Matches(c, vs)
    ensures Matches(Counted(c, v.outcome), vs + [v])
  {
    assert (vs + [v])[..|vs|] == vs;
  }

  /** The buffers judged so far and the others, still as they came. */
  ghost predicate Sofar(
    acl: Acl, nNext: nat, bs: seq<Buffer>, bufs: array<Buffer>, vs: seq<Verdict>, c: Counters)
    reads bufs
  {
    && bufs.Length == |bs| && |vs| <= |bs| && Matches(c, vs)
    && (forall k :: 0 <= k < |bs| ==> Sized(bs[k]) && bs[k].rx in acl.enabled)
    && (forall k :: 0 <= k < |vs| ==> bs[k].current >= -VXLAN_HEADER)
    && (forall k :: 0 <= k < |vs| ==> vs[k] == Judge(acl, nNext, bs[k]) && bufs[k] == vs[k].b)
    && (forall k :: |vs| <= k < |bs| ==> bufs[k] == bs[k])
  }

  /** Takes the next buffer, unless its inner frame starts in the headroom. */
  method Take(acl: TuntermAcl, nNext: nat, bufs: array<Buffer>, vs: seq<Verdict>, c: Counters, ghost bs: seq<Buffer>)
    returns (ok: bool, vs': seq<Verdict>, c': Counters)
    requires acl.Valid() && Sofar(acl.Abs(), nNext, bs, bufs, vs, c) && |vs| < bufs.Length
    modifies bufs
    ensures acl.Valid() && acl.Abs() == old(acl.Abs())
    ensures Sofar(acl.Abs(), nNext, bs, bufs, vs', c')
    ensures ok <==> old(bufs[|vs|]).current >= -VXLAN_HEADER
    ensures old(bufs[|vs|]) == bs[|vs|] && |vs'| == if ok then |vs| + 1 else |vs|
  {
    hide Consistent, RulesOf, View, PayloadsAgree, TablesAgree, SlotsLive, Bypassed, SlotsOf, EnabledOf, Judge,
         Counted, Matches, Sized;
    vs', c' := vs, c;
    var v := Classify(acl, bufs[|vs|], nNext);
    ok := v.Some?;
    if ok {
      bufs[|vs|] := v.value.b;
      CountOne(c, vs, v.value);
      vs', c' := vs + [v.value], Counted(c, v.value.outcome);
    }
  }

  /** The node on a frame: every buffer is judged once, in order, however the space of the
      next frames is granted, up to the first whose inner frame starts in the headroom. */
  method Node(acl: TuntermAcl, bufs: array<Buffer>, nNext: nat, grant: nat -> nat)
    returns (vs: seq<Verdict>, c: Counters)
    requires acl.Valid() && (forall n :: grant(n) > 0)
    requires forall k :: 0 <= k < bufs.Length ==>
               && bufs[k].rx in acl.Abs().enabled
               && Has(bufs[k], bufs[k].current, MAX_INNER) && |bufs[k].mem| <= 0x1_0000_0000
    modifies bufs
    ensures acl.Valid() && acl.Abs() == old(acl.Abs())
    ensures |vs| <= bufs.Length
    ensures forall k :: 0 <= k < |vs| ==> old(bufs[k]).current >= -VXLAN_HEADER
    ensures |vs| < bufs.Length ==> old(bufs[|vs|]).current < -VXLAN_HEADER
    ensures forall k :: 0 <= k < |vs| ==>
              vs[k] == Judge(acl.Abs(), nNext, old(bufs[k])) && bufs[k] == vs[k].b
    ensures Matches(c, vs) && c.notSupported == 0
    ensures c.redirected + c.noTable + c.notIp + c.noMatch == |vs|
  {
    ghost var bs := bufs[..];
    vs, c := [], Counters(0, 0, 0, 0, 0);
    CountNone();
    ghost var user := acl.Abs();
    hide Judge, Matches, TuntermAcl.Valid, TuntermAcl.Abs;
    assert Sofar(user, nNext, bs, bufs, vs, c);
    hide Sofar;
    var frames, ok := 0, true;
    while ok && |vs| < bufs.Length
      invariant acl.Valid() && acl.Abs() == user && |vs| <= bufs.Length
      invariant Sofar(user, nNext, bs, bufs, vs, c)
      invariant !ok ==> |vs| < |bs| && bs[|vs|].current < -VXLAN_HEADER
      decreases ok, bufs.Length - |vs|
    {
      var space := grant(frames);
      ghost var reach := |vs| + space;
      frames := frames + 1;
      while ok && |vs| < bufs.Length && space > 0
        invariant acl.Valid() && acl.Abs() == user && |vs| <= bufs.Length
        invariant Sofar(user, nNext, bs, bufs, vs, c)
        invariant ok ==> |vs| + space == reach
        invariant !ok ==> |vs| < |bs| && bs[|vs|].current < -VXLAN_HEADER
        decreases space
      {
        ok, vs, c := Take(acl, nNext, bufs, vs, c, bs);
        space := space - 1;
      }
    }
    JudgedInOrder(user, nNext, bs, bufs, vs, c);
  }

  lemma JudgedInOrder(acl: Acl, nNext: nat, bs: seq<Buffer>, bufs: array<Buffer>, vs: seq<Verdict>, c: Counters)
    requires Sofar(acl, nNext, bs, bufs, vs, c)
    ensures |vs| <= |bs| == bufs.Length && Matches(c, vs) && c.notSupported == 0
    ensures forall k :: 0 <= k < |bs| ==> Sized(bs[k])
    ensures forall k :: 0 <= k < |vs| ==> bs[k].current >= -VXLAN_HEADER
    ensures forall k :: 0 <= k < |vs| ==> vs[k] == Judge(acl, nNext, bs[k]) && bufs[k] == vs[k].b
    ensures c.redirected + c.noTable + c.notIp + c.noMatch == |vs|
  {
    hide Judge, Matches;
    MatchedTotal(c, acl, nNext, vs, bs[..|vs|]);
  }
}
