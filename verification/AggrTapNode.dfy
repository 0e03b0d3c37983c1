/**
 The sonic-ext-aggr-tap-redirect node on the interface-output arc of aggregate host taps: a
 punted packet that still carries its capture cookie is re-aimed at the host tap of the
 member port it came in on, and interface-output starts over on that tap.
 */
module AggrTapNode {
  import opened Basics
  import opened Buffers
  import opened WireFrame
  import opened PuntLifecycle

  datatype Outcome = Redirected | NoCookie | NoLcp | SwitchedOff

  const NEXT_INTERFACE_OUTPUT: nat := 0

  datatype Verdict = Verdict(b: Buffer, next: nat, outcome: Outcome)

  /** The next feature of the arc, in sixteen bits. */
  function Onward(feature: Buffer -> nat, b: Buffer): nat { feature(b) % 0x1_0000 }

  predicate Ready(b: Buffer) { Has(b, b.l2, MACS + 2) && (|b.cookie.tag| == 0 || |b.cookie.tag| == TAG) }

  function Spent(b: Buffer): Buffer { b.(cookie := b.cookie.(valid := false)) }

  function Judge(ports: Ports, punt: bool, feature: Buffer -> nat, b: Buffer): Verdict
    requires Ready(b)
  {
    if !punt then Verdict(b, Onward(feature, b), SwitchedOff)
    else if !b.cookie.valid then Verdict(b, Onward(feature, b), NoCookie)
    else match TapFor(ports, b.cookie.origRx, b.tx)
      case None => Verdict(Spent(b), Onward(feature, b), NoLcp)
      case Some(tap) => Verdict(Spent(Restored(b)).(tx := tap), NEXT_INTERFACE_OUTPUT, Redirected)
  }

  method Classify(ports: Ports, punt: bool, feature: Buffer -> nat, b: Buffer) returns (v: Verdict)
    requires Ready(b)
    ensures v == Judge(ports, punt, feature, b)
  {
    var next := feature(b) % 0x1_0000;
    if !punt {
      return Verdict(b, next, SwitchedOff);
    }
    if !b.cookie.valid {
      return Verdict(b, next, NoCookie);
    }
    var ok, b', pushed := RedirectToIngressTap(ports, b, b.cookie.origRx, b.tx);
    if !ok {
      b' := b'.(cookie := b'.cookie.(valid := false));
      return Verdict(b', next, NoLcp);
    }
    return Verdict(b', NEXT_INTERFACE_OUTPUT, Redirected);
  }

  function OutcomeOf(v: Verdict): Outcome { v.outcome }

  datatype Counters = Counters(redirected: nat, noCookie: nat, noLcp: nat, disabled: nat)

  function Bumped(c: Counters, o: Outcome): Counters {
    match o
    case Redirected => c.(redirected := c.redirected + 1)
    case NoCookie => c.(noCookie := c.noCookie + 1)
    case NoLcp => c.(noLcp := c.noLcp + 1)
    case SwitchedOff => c.(disabled := c.disabled + 1)
  }

  /** The counters are the tallies, and partition the frame. */
  ghost predicate Matches(c: Counters, vs: seq<Verdict>) {
    && c.redirected == Tally(vs, OutcomeOf, Redirected) && c.noCookie == Tally(vs, OutcomeOf, NoCookie)
    && c.noLcp == Tally(vs, OutcomeOf, NoLcp) && c.disabled == Tally(vs, OutcomeOf, SwitchedOff)
    && c.redirected + c.noCookie + c.noLcp + c.disabled == |vs|
  }

  lemma CountNone()
    ensures Matches(Counters(0, 0, 0, 0), [])
  {
  }

  lemma CountOne(c: Counters, vs: seq<Verdict>, v: Verdict)
    requires Matches(c, vs)
    ensures Matches(Bumped(c, v.outcome), vs + [v])
  {
    hide Tally;
    assert OutcomeOf(v) == v.outcome;
    TallyMore(vs, v, OutcomeOf, Redirected);
    TallyMore(vs, v, OutcomeOf, NoCookie);
    TallyMore(vs, v, OutcomeOf, NoLcp);
    TallyMore(vs, v, OutcomeOf, SwitchedOff);
  }

  /** The node on a frame: buffers are rewritten in place and the four outcomes partition it. */
  method Node(ports: Ports, punt: bool, feature: Buffer -> nat, bufs: array<Buffer>)
    returns (vs: seq<Verdict>, c: Counters)
    requires forall k :: 0 <= k < bufs.Length ==> Ready(bufs[k])
    modifies bufs
    ensures |vs| == bufs.Length
    ensures forall k :: 0 <= k < bufs.Length ==>
              vs[k] == Judge(ports, punt, feature, old(bufs[k])) && bufs[k] == vs[k].b
    ensures Matches(c, vs)
  {
    hide Judge, Ready, Matches, Bumped;
    vs, c := [], Counters(0, 0, 0, 0);
    CountNone();
    var i := 0;
    while i < bufs.Length
      invariant i == |vs| <= bufs.Length && Matches(c, vs)
      invariant forall k :: 0 <= k < i ==> vs[k] == Judge(ports, punt, feature, old(bufs[k])) && bufs[k] == vs[k].b
      invariant forall k :: i <= k < bufs.Length ==> bufs[k] == old(bufs[k])
    {
      var v := Classify(ports, punt, feature, bufs[i]);
      bufs[i] := v.b;
      CountOne(c, vs, v);
      vs, c := vs + [v], Bumped(c, v.outcome);
      i := i + 1;
    }
  }

  // ----- No redirect loop -----

  /** How often a packet passes interface-output when the feature is on for the taps in `on`. */
  function Passes(ports: Ports, punt: bool, feature: Buffer -> nat, on: set<nat>, b: Buffer): nat
    requires Ready(b)
    decreases b.cookie.valid
  {
    if b.tx !in on then 1
    else
      var v := Judge(ports, punt, feature, b);
      if v.outcome == Redirected
      then ReadyAgain(b); 1 + Passes(ports, punt, feature, on, v.b)
      else 1
  }

  lemma ReadyAgain(b: Buffer)
    requires Ready(b)
    ensures Ready(Spent(Restored(b)))
    ensures Restored(b).cookie == b.cookie
  {
  }

  /** Whatever the feature configuration, interface-output is re-entered at most once, and only
      by a packet that carried a cookie: the first redirect spends it. */
  lemma AtMostOneReentry(ports: Ports, punt: bool, feature: Buffer -> nat, on: set<nat>, b: Buffer)
    requires Ready(b)
    ensures Passes(ports, punt, feature, on, b) <= if b.cookie.valid then 2 else 1
  {
    if b.tx in on && Judge(ports, punt, feature, b).outcome == Redirected {
      ReadyAgain(b);
    }
  }

  /** linux-cp's view: interfaces and the host tap of each port with a live pair. */
  ghost predicate Reflects(ports: Ports, kinds: Kinds, pairs: seq<Pair>) {
    && ports.interfaces == kinds.interfaces
    && forall phy :: phy in ports.hostTap ==> Pair(phy, ports.hostTap[phy]) in pairs
  }

  /** The tap a packet is redirected to runs this node exactly when the port it came in on is an
      aggregate by now. */
  lemma TapIsQuietIff(
    kinds: Kinds, pairs: seq<Pair>, aggrTap: map<nat, int>, ports: Ports, origRx: nat, excluded: nat)
    requires Counted(kinds, AggrTap, true, pairs, aggrTap)
    requires Reflects(ports, kinds, pairs) && OneToOne(pairs)
    requires TapFor(ports, origRx, excluded).Some?
    ensures Count(aggrTap, TapFor(ports, origRx, excluded).value) == 0
       <==> !IsAggregate(kinds, PortOf(ports, origRx))
  {
    var phy, tap := PortOf(ports, origRx), TapFor(ports, origRx, excluded).value;
    var k :| 0 <= k < |pairs| && pairs[k] == Pair(phy, tap);
    OnlyWanter(kinds, AggrTap, pairs, k, tap);
  }

  /** A packet captured on an interface that runs capture is not redirected to a tap that runs
      this node, however pairs have changed since, unless its ingress index has become a
      sub-interface or an aggregate. */
  lemma MemberTapIsQuiet(
    kindsThen: Kinds, captureArmed: bool, pairsThen: seq<Pair>, capture: map<nat, int>,
    kinds: Kinds, pairs: seq<Pair>, aggrTap: map<nat, int>, ports: Ports, origRx: nat, excluded: nat)
    requires Counted(kindsThen, Capture, captureArmed, pairsThen, capture) && Count(capture, origRx) > 0
    requires IsSub(kinds, origRx) == IsSub(kindsThen, origRx)
    requires IsAggregate(kinds, origRx) == IsAggregate(kindsThen, origRx)
    requires Counted(kinds, AggrTap, true, pairs, aggrTap)
    requires Reflects(ports, kinds, pairs) && OneToOne(pairs)
    requires TapFor(ports, origRx, excluded).Some?
    ensures Count(aggrTap, TapFor(ports, origRx, excluded).value) == 0
  {
    SomeoneWants(kindsThen, Capture, pairsThen, origRx);
    TapIsQuietIff(kinds, pairs, aggrTap, ports, origRx, excluded);
  }

  /** Port 5 gets a pair and loses it; the index comes back as a bond with a new pair. */
  function Reuse(): (run: seq<Event>)
    ensures |run| == 5
  {
    [Punt(true), Add(Pair(5, 8)), Del(0), Reclassify(Five(true)), Add(Pair(5, 9))]
  }

  lemma ReusePairs()
    ensures Alive(Reuse()[..2]) == [Pair(5, 8)] && Alive(Reuse()[..3]) == [] && Alive(Reuse()) == [Pair(5, 9)]
  {
    var run := Reuse();
    assert run[..2][..1] == run[..1] && run[..1][..0] == [];
    assert Alive(run[..1]) == [];
    assert run[..3][..2] == run[..2] && run[..4][..3] == run[..3];
  }

  lemma ReuseIsSteady()
    ensures Steady(Five(false), Reuse())
    ensures EverOn(Reuse()[..2], true) && KindsAfter(Five(false), Reuse()[..2]) == Five(false)
    ensures KindsAfter(Five(false), Reuse()) == Five(true)
  {
    hide Alive;
    ReusePairs();
    var run := Reuse();
    assert run[..2][..1] == run[..1] && run[..1][..0] == [];
  }

  /** The change of kind matters: a packet captured on port 5 at the start of that run is
      redirected at its end to a tap that runs this node.  The spent cookie still stops it. */
  lemma ReusedIndexIsNotQuiet(ports: Ports)
    requires ports == Ports(map[5 := Main], map[5 := 9])
    ensures Steady(Five(false), Reuse())
    ensures EverOn(Reuse()[..2], true) && KindsAfter(Five(false), Reuse()[..2]) == Five(false)
    ensures Wanting(Five(false), Capture, Alive(Reuse()[..2]), 5) == 1
    ensures KindsAfter(Five(false), Reuse()) == Five(true)
    ensures OneToOne(Alive(Reuse())) && Reflects(ports, Five(true), Alive(Reuse()))
    ensures TapFor(ports, 5, 7) == Some(9) && Wanting(Five(true), AggrTap, Alive(Reuse()), 9) == 1
  {
    hide Steady, Alive, Reuse, EverOn, KindsAfter;
    ReusePairs();
    ReuseIsSteady();
  }
}
