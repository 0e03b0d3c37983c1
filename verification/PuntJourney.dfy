/**
 A captured packet on its way through the two redirecting nodes.  Between visits anything may
 happen to it except that only capture stamps a cookie.
 */
module PuntJourney {
  import opened Buffers
  import opened WireFrame
  import opened Basics
  import AggrTapNode
  import GleanNode

  // ----- Home -----

  /** The host tap of the port that interface `i` is or rides on. */
  predicate IsHome(ports: Ports, i: nat, tap: nat) {
    i in ports.interfaces &&
    match ports.interfaces[i]
    case Main => i in ports.hostTap && ports.hostTap[i] == tap
    case Sub(sup) => sup in ports.hostTap && ports.hostTap[sup] == tap
  }

  lemma TapIsHome(ports: Ports, i: nat, excluded: nat, tap: nat)
    ensures TapFor(ports, i, excluded) == Some(tap) <==> IsHome(ports, i, tap) && tap != excluded
  {
  }

  /** A frame that can be captured, and how it may travel. */
  ghost predicate MayArrive(b: Buffer, ops: seq<Op>) {
    && b.length >= 0 && Has(b, b.current, b.length) && Has(b, b.current, 18)
    && MayTravel(Ingress(b), ops) && Pops(ops) <= 1
    && (Pops(ops) == 1 ==> b.length >= 16)
  }

  /** The captured frame as a redirecting node finds it: it has travelled, and its interfaces,
      adjacency and error are whatever other nodes made of them. */
  ghost function Arrived(b: Buffer, ops: seq<Op>, rx: nat, tx: nat, adj: nat, error: nat): Buffer
    requires MayArrive(b, ops)
  {
    Traveled(Ingress(b), ops).(rx := rx, tx := tx, adj := adj, error := error)
  }

  /** The wire frame comes back whole: no tag was popped, or the frame was captured at a
      non-negative offset and carries no second tag. */
  ghost predicate ComesBackWhole(b: Buffer, ops: seq<Op>)
    requires Has(b, b.current, 18)
  {
    Pops(ops) == 0
    || (b.current >= 0 && Bytes(b, b.current + 16, 2) !in {[0x81, 0x00], [0x88, 0xA8], [0x91, 0x00]})
  }

  /** On arrival the cookie names the interface the frame came in on, and restoring the frame
      gives back its bytes exactly when it comes back whole. */
  lemma ArrivesStamped(b: Buffer, ops: seq<Op>, rx: nat, tx: nat, adj: nat, error: nat)
    requires MayArrive(b, ops)
    ensures var c := Arrived(b, ops, rx, tx, adj, error);
            && AggrTapNode.Ready(c) && c.cookie.valid && c.cookie.origRx == b.rx
            && c.rx == rx && c.tx == tx && c.adj == adj && c.error == error
            && var r := Restored(c);
            && End(r) == End(b) && r.length >= 0 && Has(r, r.current, r.length)
            && (Packet(r) == Packet(b) <==> ComesBackWhole(b, ops))
            && r.cookie == c.cookie && r.rx == rx && r.adj == adj && r.error == error
  {
    StampSurvives(b, ops);
    RoundTrip(b, ops);
    hide MayTravel, Traveled, Pops, Restored, Ingress, Bytes;
    var c, d := Traveled(Ingress(b), ops), Arrived(b, ops, rx, tx, adj, error);
    RestoredAlike(c, d);
    RestoreKeeps(d);
    SamePacket(Restored(c), Restored(d));
  }

  lemma StampSurvives(b: Buffer, ops: seq<Op>)
    requires MayArrive(b, ops)
    ensures var c := Traveled(Ingress(b), ops).cookie; c.valid && c.origRx == b.rx
  {
    TravelLeavesTrace(b, Ingress(b), ops, false);
    hide MayTravel, Traveled, Pops, Slid;
  }

  lemma RestoreKeeps(b: Buffer)
    requires Has(b, b.l2, MACS + 2) && (|b.cookie.tag| == 0 || |b.cookie.tag| == TAG)
    ensures var r := Restored(b);
            r.cookie == b.cookie && r.rx == b.rx && r.tx == b.tx && r.adj == b.adj && r.error == b.error
  {
    hide Patched, IsTpid;
  }

  lemma SamePacket(r: Buffer, q: Buffer)
    requires r.length >= 0 && Has(r, r.current, r.length)
    requires q == r.(rx := q.rx, tx := q.tx, adj := q.adj, error := q.error)
    ensures Has(q, q.current, q.length) && Packet(q) == Packet(r) && End(q) == End(r)
  {
  }

  /** Restoring looks at nothing but the frame and the cookie. */
  lemma RestoredAlike(c: Buffer, d: Buffer)
    requires Has(c, c.l2, MACS + 2) && (|c.cookie.tag| == 0 || |c.cookie.tag| == TAG)
    requires d == c.(rx := d.rx, tx := d.tx, adj := d.adj, error := d.error)
    ensures var r, q := Restored(c), Restored(d);
            q == r.(rx := d.rx, tx := d.tx, adj := d.adj, error := d.error)
  {
    hide Patched, IsTpid;
    assert Bytes(Advance(c, c.l2 - c.current), c.l2 + MACS, 2) == Bytes(Advance(d, d.l2 - d.current), d.l2 + MACS, 2);
  }

  /** A packet sent home: aimed at the tap, past interface-output, its cookie spent, its frame
      restored. */
  ghost predicate SentHome(b: Buffer, ops: seq<Op>, tap: nat, sent: Buffer, next: nat)
    requires MayArrive(b, ops)
  {
    && sent.tx == tap && next == 0 && !sent.cookie.valid
    && End(sent) == End(b) && sent.length >= 0 && Has(sent, sent.current, sent.length)
    && (Packet(sent) == Packet(b) <==> ComesBackWhole(b, ops))
  }

  /** The aggregate-tap node sends a captured frame to the tap of the port it came in on, unless
      punting is off, the port has no tap or the frame is leaving through that tap already.
      In the latter two cases the cookie is spent all the same. */
  lemma AggrTapSendsHome(
    ports: Ports, punt: bool, feature: Buffer -> nat,
    b: Buffer, ops: seq<Op>, rx: nat, tx: nat, adj: nat, error: nat, tap: nat)
    requires MayArrive(b, ops)
    ensures var c := Arrived(b, ops, rx, tx, adj, error);
            && AggrTapNode.Ready(c)
            && var v := AggrTapNode.Judge(ports, punt, feature, c);
            && (punt && IsHome(ports, b.rx, tap) && tap != tx ==> SentHome(b, ops, tap, v.b, v.next))
            && (punt && (forall home :: IsHome(ports, b.rx, home) ==> home == tx) ==>
                  v.b == c.(cookie := c.cookie.(valid := false)) && v.next == feature(c) % 0x1_0000)
            && (!punt ==> v.b == c && v.next == feature(c) % 0x1_0000)
  {
    ArrivesStamped(b, ops, rx, tx, adj, error);
    hide Arrived, Restored, IsHome, ComesBackWhole, TapFor, MayArrive;
    TapIsHome(ports, b.rx, tx, tap);
    var t := TapFor(ports, b.rx, tx);
    if t.Some? {
      TapIsHome(ports, b.rx, tx, t.value);
    }
  }

  /** The adjacency is one of a neighbour still to be resolved, out of an existing interface. */
  predicate AwaitsNeighbour(env: GleanNode.Env, adj: nat) {
    && adj != 0xFFFF_FFFF && adj in env.adjacencies
    && (env.adjacencies[adj].kind == GleanNode.Glean || env.adjacencies[adj].kind == GleanNode.Arp)
    && env.adjacencies[adj].egress in env.ports.interfaces
  }

  /** The glean node sends a captured frame home exactly when punting is on, a listed node dropped
      it, its adjacency awaits a neighbour, no packet has taken the token of that adjacency and
      ingress interface, and the port it came in on has a tap.  A packet that gets as far as
      the token takes it.  Every other packet goes on to be dropped as it came. */
  lemma GleanSendsHome(
    env: GleanNode.Env, bucket: GleanNode.Key -> nat, bits: set<nat>,
    b: Buffer, ops: seq<Op>, rx: nat, tx: nat, adj: nat, error: nat)
    requires MayArrive(b, ops)
    ensures var c := Arrived(b, ops, rx, tx, adj, error);
            && AggrTapNode.Ready(c)
            && var (r, bits') := GleanNode.Step(bucket, bits, GleanNode.Item(env, c));
            var asks := && env.punt && AwaitsNeighbour(env, adj)
                        && exists j :: 0 <= j < |env.sources| && env.sources[j] == env.nodeOf(error) != 0xFFFF_FFFF;
            var token := bucket(GleanNode.Key(adj, b.rx));
            && (forall tap :: tap != 0xFFFF_FFFF && asks && token !in bits && IsHome(env.ports, b.rx, tap) ==>
                  r.drop == GleanNode.Stolen && SentHome(b, ops, tap, r.b, r.next))
            && (r.drop == GleanNode.Stolen ==> asks && token !in bits && IsHome(env.ports, b.rx, r.b.tx))
            && (r.drop != GleanNode.Stolen ==> r.b == c && r.next == env.feature(c) % 0x1_0000)
            && bits' == (if asks then bits + {token} else bits)
  {
    ArrivesStamped(b, ops, rx, tx, adj, error);
    hide Arrived, Restored, IsHome, ComesBackWhole, TapFor, MayArrive;
    var t := TapFor(env.ports, b.rx, NONE);
    if t.Some? {
      TapIsHome(env.ports, b.rx, NONE, t.value);
    }
    forall tap
      ensures IsHome(env.ports, b.rx, tap) && tap != NONE ==> t == Some(tap)
    {
      TapIsHome(env.ports, b.rx, NONE, tap);
    }
    var c := Arrived(b, ops, rx, tx, adj, error);
    assert GleanNode.FromNbr(env, c) <==>
           exists j :: 0 <= j < |env.sources| && env.sources[j] == env.nodeOf(error) != NONE;
  }

  // ----- At most once -----

  datatype Visit =
    | AtAggrTap(ports: Ports, punt: bool, feature: Buffer -> nat)
    | AtDropArc(env: GleanNode.Env, bucket: GleanNode.Key -> nat, bits: set<nat>)

  ghost function After(v: Visit, b: Buffer): Buffer
    requires AggrTapNode.Ready(b)
  {
    match v
    case AtAggrTap(ports, punt, feature) => AggrTapNode.Judge(ports, punt, feature, b).b
    case AtDropArc(env, bucket, bits) => GleanNode.Step(bucket, bits, GleanNode.Item(env, b)).0.b
  }

  ghost predicate Redirects(v: Visit, b: Buffer)
    requires AggrTapNode.Ready(b)
  {
    match v
    case AtAggrTap(ports, punt, feature) => AggrTapNode.Judge(ports, punt, feature, b).outcome == AggrTapNode.Redirected
    case AtDropArc(env, bucket, bits) =>
      GleanNode.Step(bucket, bits, GleanNode.Item(env, b)).0.drop == GleanNode.Stolen
  }

  /** The packet as each visit finds it. */
  ghost predicate Journey(visits: seq<Visit>, bs: seq<Buffer>) {
    && |visits| == |bs|
    && (forall k :: 0 <= k < |bs| ==> AggrTapNode.Ready(bs[k]))
    && (forall k :: 0 < k < |bs| ==> bs[k].cookie == After(visits[k - 1], bs[k - 1]).cookie)
  }

  /** A redirect needs a valid cookie and leaves it spent; no visit revives one. */
  lemma VisitSpends(v: Visit, b: Buffer)
    requires AggrTapNode.Ready(b)
    ensures Redirects(v, b) ==> b.cookie.valid && !After(v, b).cookie.valid
    ensures !b.cookie.valid ==> !After(v, b).cookie.valid
  {
    AggrTapNode.ReadyAgain(b);
  }

  lemma {:induction false} StaysSpent(visits: seq<Visit>, bs: seq<Buffer>, i: nat, j: nat)
    requires Journey(visits, bs) && i <= j < |bs| && !bs[i].cookie.valid
    ensures !bs[j].cookie.valid
    decreases j - i
  {
    if i < j {
      VisitSpends(visits[i], bs[i]);
      assert bs[i + 1].cookie == After(visits[i], bs[i]).cookie;
      StaysSpent(visits, bs, i + 1, j);
    }
  }

  /** Over any journey, whatever the nodes, toggles and pairs do, a captured packet is
      redirected to a tap at most once. */
  lemma RedirectedAtMostOnce(visits: seq<Visit>, bs: seq<Buffer>, i: nat, j: nat)
    requires Journey(visits, bs) && i < j < |bs| && Redirects(visits[i], bs[i])
    ensures !Redirects(visits[j], bs[j])
  {
    VisitSpends(visits[i], bs[i]);
    assert bs[i + 1].cookie == After(visits[i], bs[i]).cookie;
    StaysSpent(visits, bs, i + 1, j);
    VisitSpends(visits[j], bs[j]);
  }
}
