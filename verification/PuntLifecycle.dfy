/**
 Which interfaces run which node of the punt path.  Interfaces come and go in linux-cp pairs
 of a port and its host tap; features are enabled when a pair appears or when a toggle is
 first switched on, and disabled when the pair goes.  An interface index may come back under
 another kind, but not while a pair names it.
 */
module PuntLifecycle {
  import opened Basics
  import opened WireFrame

  datatype Pair = Pair(phy: nat, host: nat)

  datatype Kinds = Kinds(interfaces: map<nat, SwInterface>, isBvi: nat -> bool, isBond: nat -> bool)

  predicate IsSub(kinds: Kinds, i: nat) { i in kinds.interfaces && kinds.interfaces[i].Sub? }

  /** A BVI, a bond or a sub-interface of a bond. */
  predicate IsAggregate(kinds: Kinds, i: nat) {
    (i in kinds.interfaces && !IsSub(kinds, i) && kinds.isBvi(i)) || (i in kinds.interfaces && kinds.isBond(i))
  }

  datatype Feature = Capture | HostXc | AggrTap

  /** Does this pair want the feature on interface `i`? */
  predicate Wants(kinds: Kinds, f: Feature, p: Pair, i: nat) {
    match f
    case Capture => p.phy == i && !IsAggregate(kinds, p.phy) && !IsSub(kinds, i)
    case HostXc => p.host == i && !IsSub(kinds, i)
    case AggrTap => p.host == i && IsAggregate(kinds, p.phy)
  }

  /** How many live pairs want the feature on the interface. */
  function Wanting(kinds: Kinds, f: Feature, pairs: seq<Pair>, i: nat): nat {
    if pairs == [] then 0
    else Wanting(kinds, f, pairs[..|pairs| - 1], i) + if Wants(kinds, f, pairs[|pairs| - 1], i) then 1 else 0
  }

  lemma {:induction false} WantingWithout(kinds: Kinds, f: Feature, pairs: seq<Pair>, k: nat, i: nat)
    requires k < |pairs|
    ensures Wanting(kinds, f, pairs, i)
         == Wanting(kinds, f, pairs[..k] + pairs[k + 1..], i) + if Wants(kinds, f, pairs[k], i) then 1 else 0
  {
    hide Wants;
    var n := |pairs| - 1;
    var rest := pairs[..k] + pairs[k + 1..];
    if k == n {
      assert rest == pairs[..n];
    } else {
      var front := pairs[..n];
      WantingWithout(kinds, f, front, k, i);
      assert front[k] == pairs[k];
      WithoutOfMore(front, pairs[n], k);
      assert pairs == front + [pairs[n]];
      WantingMore(kinds, f, front[..k] + front[k + 1..], pairs[n], i);
    }
  }

  lemma WithoutOfMore(pairs: seq<Pair>, p: Pair, k: nat)
    requires k < |pairs|
    ensures (pairs + [p])[..k] + (pairs + [p])[k + 1..] == (pairs[..k] + pairs[k + 1..]) + [p]
  {
    assert (pairs + [p])[..k] == pairs[..k] && (pairs + [p])[k + 1..] == pairs[k + 1..] + [p];
  }

  lemma WantingMore(kinds: Kinds, f: Feature, pairs: seq<Pair>, p: Pair, i: nat)
    ensures Wanting(kinds, f, pairs + [p], i) == Wanting(kinds, f, pairs, i) + if Wants(kinds, f, p, i) then 1 else 0
  {
    hide Wants;
    assert (pairs + [p])[..|pairs|] == pairs;
  }

  lemma {:induction false} SomeoneWants(kinds: Kinds, f: Feature, pairs: seq<Pair>, i: nat)
    ensures Wanting(kinds, f, pairs, i) > 0 <==> exists k :: 0 <= k < |pairs| && Wants(kinds, f, pairs[k], i)
  {
    if pairs != [] {
      var n := |pairs| - 1;
      SomeoneWants(kinds, f, pairs[..n], i);
      if k :| 0 <= k < |pairs| && Wants(kinds, f, pairs[k], i) {
        assert k < n ==> Wants(kinds, f, pairs[..n][k], i);
      }
      if k :| 0 <= k < n && Wants(kinds, f, pairs[..n][k], i) {
        assert Wants(kinds, f, pairs[k], i);
      }
    }
  }

  /** The counts are zero before the feature is armed and then the number of pairs wanting it. */
  ghost predicate Counted(kinds: Kinds, f: Feature, armed: bool, pairs: seq<Pair>, counts: map<nat, int>) {
    forall i: nat :: Count(counts, i) == if armed then Wanting(kinds, f, pairs, i) else 0
  }

  /** The counts after a pair that wants the feature adds `d` to its interface. */
  function Adjusted(kinds: Kinds, f: Feature, p: Pair, counts: map<nat, int>, d: int): map<nat, int> {
    var i := if f == Capture then p.phy else p.host;
    if Wants(kinds, f, p, i) then Added(counts, i, d) else counts
  }

  lemma CountedAdd(kinds: Kinds, f: Feature, pairs: seq<Pair>, p: Pair, counts: map<nat, int>)
    requires Counted(kinds, f, true, pairs, counts)
    ensures Counted(kinds, f, true, pairs + [p], Adjusted(kinds, f, p, counts, 1))
  {
    assert (pairs + [p])[..|pairs|] == pairs;
  }

  lemma CountedDel(kinds: Kinds, f: Feature, pairs: seq<Pair>, k: nat, counts: map<nat, int>)
    requires Counted(kinds, f, true, pairs, counts) && k < |pairs|
    ensures Counted(kinds, f, true, pairs[..k] + pairs[k + 1..], Adjusted(kinds, f, pairs[k], counts, -1))
  {
    forall i: nat
      ensures Count(Adjusted(kinds, f, pairs[k], counts, -1), i)
           == Wanting(kinds, f, pairs[..k] + pairs[k + 1..], i)
    {
      WantingWithout(kinds, f, pairs, k, i);
    }
  }

  lemma CountedUnarmed(kinds: Kinds, f: Feature, pairs: seq<Pair>, pairs': seq<Pair>, counts: map<nat, int>)
    requires Counted(kinds, f, false, pairs, counts)
    ensures Counted(kinds, f, false, pairs', counts)
  {
  }

  // ----- Changing kinds -----

  /** Both classifications say the same of the interfaces the live pairs name. */
  ghost predicate SamePairKinds(kinds: Kinds, kinds': Kinds, pairs: seq<Pair>) {
    forall k :: 0 <= k < |pairs| ==>
      && IsSub(kinds, pairs[k].phy) == IsSub(kinds', pairs[k].phy)
      && IsAggregate(kinds, pairs[k].phy) == IsAggregate(kinds', pairs[k].phy)
      && IsSub(kinds, pairs[k].host) == IsSub(kinds', pairs[k].host)
  }

  /** Every live pair wants the feature where it wanted it before. */
  ghost predicate SameWants(kinds: Kinds, kinds': Kinds, f: Feature, pairs: seq<Pair>) {
    forall k, i: nat :: 0 <= k < |pairs| ==> (Wants(kinds, f, pairs[k], i) <==> Wants(kinds', f, pairs[k], i))
  }

  lemma {:induction false} WantingSame(kinds: Kinds, kinds': Kinds, f: Feature, pairs: seq<Pair>, i: nat)
    requires SameWants(kinds, kinds', f, pairs)
    ensures Wanting(kinds, f, pairs, i) == Wanting(kinds', f, pairs, i)
  {
    if pairs != [] {
      var n := |pairs| - 1;
      assert forall k :: 0 <= k < n ==> pairs[..n][k] == pairs[k];
      WantingSame(kinds, kinds', f, pairs[..n], i);
      assert Wants(kinds, f, pairs[n], i) <==> Wants(kinds', f, pairs[n], i);
    }
  }

  ghost predicate OneToOne(pairs: seq<Pair>) {
    forall j, k :: 0 <= j < k < |pairs| ==> pairs[j].phy != pairs[k].phy && pairs[j].host != pairs[k].host
  }

  /** In one-to-one pairs at most the pair that names an interface wants a feature there. */
  lemma OnlyWanter(kinds: Kinds, f: Feature, pairs: seq<Pair>, k: nat, i: nat)
    requires OneToOne(pairs) && k < |pairs|
    requires i == if f == Capture then pairs[k].phy else pairs[k].host
    ensures Wanting(kinds, f, pairs, i) > 0 <==> Wants(kinds, f, pairs[k], i)
  {
    SomeoneWants(kinds, f, pairs, i);
  }

  /** The counts survive a change of kinds exactly when every live pair still wants what it
      wanted.  A pair whose port changes kind is later removed as something it was not added
      as. */
  lemma ReclassifyKeepsCountedIff(
    kinds: Kinds, kinds': Kinds, f: Feature, pairs: seq<Pair>, counts: map<nat, int>)
    requires Counted(kinds, f, true, pairs, counts) && OneToOne(pairs)
    ensures Counted(kinds', f, true, pairs, counts) <==> SameWants(kinds, kinds', f, pairs)
  {
    if SameWants(kinds, kinds', f, pairs) {
      CountedSame(kinds, kinds', f, true, pairs, counts);
    }
    if Counted(kinds', f, true, pairs, counts) {
      forall k, i: nat | 0 <= k < |pairs|
        ensures Wants(kinds, f, pairs[k], i) <==> Wants(kinds', f, pairs[k], i)
      {
        if i == if f == Capture then pairs[k].phy else pairs[k].host {
          OnlyWanter(kinds, f, pairs, k, i);
          OnlyWanter(kinds', f, pairs, k, i);
        }
      }
    }
  }

  /** Interface 5 as a port or as a bond. */
  function Five(isBond: bool): Kinds { Kinds(map[5 := Main], _ => false, _ => isBond) }

  /** A port that becomes a bond while it has a pair keeps its capture count: the removal of the
      pair does not take it back, and no pair is left to do so. */
  lemma KindChangeUnderPair()
    ensures var pairs, counts := [Pair(5, 8)], map[5 := 1];
            && Counted(Five(false), Capture, true, pairs, counts)
            && !Counted(Five(true), Capture, true, pairs, counts)
            && PairsAfter(pairs, Del(0)) == []
            && var counts' := Adjusted(Five(true), Capture, pairs[0], counts, -1);
            && Count(counts', 5) == 1 && !Counted(Five(true), Capture, true, [], counts')
  {
    var pairs, counts := [Pair(5, 8)], map[5 := 1];
    assert pairs[..0] == [];
    assert Count(counts, 5) == 1 && Wanting(Five(true), Capture, pairs, 5) == 0;
    assert Wanting(Five(true), Capture, [], 5) == 0;
  }

  lemma CountedSame(
    kinds: Kinds, kinds': Kinds, f: Feature, armed: bool, pairs: seq<Pair>, counts: map<nat, int>)
    requires Counted(kinds, f, armed, pairs, counts) && SameWants(kinds, kinds', f, pairs)
    ensures Counted(kinds', f, armed, pairs, counts)
  {
    forall i: nat
      ensures Count(counts, i) == if armed then Wanting(kinds', f, pairs, i) else 0
    {
      WantingSame(kinds, kinds', f, pairs, i);
    }
  }

  /** A device-input feature is never on for a sub-interface. */
  lemma NeverOnSub(kinds: Kinds, f: Feature, armed: bool, pairs: seq<Pair>, counts: map<nat, int>, i: nat)
    requires Counted(kinds, f, armed, pairs, counts) && f != AggrTap && IsSub(kinds, i)
    ensures Count(counts, i) == 0
  {
    SomeoneWants(kinds, f, pairs, i);
  }

  /** In one-to-one pairs no count exceeds one, and interfaces no pair names run nothing. */
  lemma {:induction false} WantingAtMostOne(kinds: Kinds, f: Feature, pairs: seq<Pair>, i: nat)
    requires OneToOne(pairs)
    ensures Wanting(kinds, f, pairs, i) <= 1
    ensures (forall k :: 0 <= k < |pairs| ==> pairs[k].phy != i && pairs[k].host != i) ==>
              Wanting(kinds, f, pairs, i) == 0
  {
    if pairs != [] {
      var n := |pairs| - 1;
      assert forall k :: 0 <= k < n ==> pairs[..n][k] == pairs[k];
      WantingAtMostOne(kinds, f, pairs[..n], i);
      SomeoneWants(kinds, f, pairs[..n], i);
    }
  }

  /** What a live pair's interfaces run, by what they are.  The host tap of a bond, of a
      sub-interface of a bond and of a main interface that is a BVI runs the aggregate-tap
      redirect, and the interface itself never runs capture.  The tap of any other runs no such
      redirect; the interface itself runs capture once that is armed, unless it is a
      sub-interface. */
  lemma CountsByKind(
    kinds: Kinds, pairs: seq<Pair>, i: nat, h: nat,
    armed: bool, capture: map<nat, int>, hostXcArmed: bool, hostXc: map<nat, int>, aggrTap: map<nat, int>)
    requires OneToOne(pairs) && Pair(i, h) in pairs
    requires Counted(kinds, Capture, armed, pairs, capture)
    requires Counted(kinds, HostXc, hostXcArmed, pairs, hostXc)
    requires Counted(kinds, AggrTap, true, pairs, aggrTap)
    ensures i in kinds.interfaces && kinds.isBond(i) ==> Count(aggrTap, h) == 1 && Count(capture, i) == 0
    ensures i in kinds.interfaces && kinds.interfaces[i] == Main && kinds.isBvi(i) ==>
              Count(aggrTap, h) == 1 && Count(capture, i) == 0
    ensures i in kinds.interfaces && kinds.interfaces[i] == Main && !kinds.isBvi(i) && !kinds.isBond(i) ==>
              Count(aggrTap, h) == 0 && Count(capture, i) == (if armed then 1 else 0)
    ensures i in kinds.interfaces && kinds.interfaces[i].Sub? && !kinds.isBond(i) ==>
              Count(aggrTap, h) == 0 && Count(capture, i) == 0
    ensures i !in kinds.interfaces ==> Count(aggrTap, h) == 0 && Count(capture, i) == (if armed then 1 else 0)
    ensures Count(hostXc, h) == if hostXcArmed && !(h in kinds.interfaces && kinds.interfaces[h].Sub?) then 1 else 0
  {
    var k :| 0 <= k < |pairs| && pairs[k] == Pair(i, h);
    OnlyWanter(kinds, AggrTap, pairs, k, h);
    OnlyWanter(kinds, Capture, pairs, k, i);
    OnlyWanter(kinds, HostXc, pairs, k, h);
    WantingAtMostOne(kinds, AggrTap, pairs, h);
    WantingAtMostOne(kinds, Capture, pairs, i);
    WantingAtMostOne(kinds, HostXc, pairs, h);
  }

  // ----- Runs -----

  datatype Event =
    | Punt(on: bool)
    | Xc(on: bool)
    | Add(pair: Pair)
    | Del(k: nat)
    | Reclassify(kinds: Kinds)

  /** Whether a toggle has ever been switched on in a run. */
  function EverOn(run: seq<Event>, isPunt: bool): bool {
    run != [] && (EverOn(run[..|run| - 1], isPunt)
                  || (var e := run[|run| - 1]; if isPunt then e == Punt(true) else e == Xc(true)))
  }

  function PairsAfter(pairs: seq<Pair>, e: Event): seq<Pair> {
    match e
    case Add(p) => pairs + [p]
    case Del(k) => if k < |pairs| then pairs[..k] + pairs[k + 1..] else pairs
    case _ => pairs
  }

  /** The pairs alive after a run. */
  function Alive(run: seq<Event>): seq<Pair> {
    if run == [] then [] else PairsAfter(Alive(run[..|run| - 1]), run[|run| - 1])
  }

  /** What each interface index is after a run. */
  function KindsAfter(kinds: Kinds, run: seq<Event>): Kinds {
    if run == [] then kinds
    else match run[|run| - 1]
      case Reclassify(kinds') => kinds'
      case _ => KindsAfter(kinds, run[..|run| - 1])
  }

  /** Kinds change only where no live pair looks. */
  ghost predicate Steady(kinds: Kinds, run: seq<Event>) {
    forall j :: 0 <= j < |run| && run[j].Reclassify? ==>
      SamePairKinds(KindsAfter(kinds, run[..j]), run[j].kinds, Alive(run[..j]))
  }

  class SonicExt {
    var kinds: Kinds
    var puntViaMember: bool
    var hostXc: bool
    var captureEnabled: bool
    var hostXcEnabled: bool
    var gleanEnabled: bool
    var pairs: seq<Pair>
    var capture: map<nat, int>
    var hostXcOn: map<nat, int>
    var aggrTap: map<nat, int>
    var glean: int

    ghost predicate Valid()
      reads this
    {
      && Counted(kinds, Capture, captureEnabled, pairs, capture)
      && Counted(kinds, HostXc, hostXcEnabled, pairs, hostXcOn)
      && Counted(kinds, AggrTap, true, pairs, aggrTap)
      && glean == (if gleanEnabled then 1 else 0)
      && (puntViaMember ==> captureEnabled && gleanEnabled)
      && (hostXc ==> hostXcEnabled)
    }

    constructor (kinds: Kinds)
      ensures Valid() && pairs == [] && this.kinds == kinds
      ensures !puntViaMember && !hostXc && !captureEnabled && !hostXcEnabled
    {
      this.kinds := kinds;
      puntViaMember, hostXc, captureEnabled, hostXcEnabled, gleanEnabled := false, false, false, false, false;
      pairs, capture, hostXcOn, aggrTap, glean := [], map[], map[], map[], 0;
    }

    /** A device-input feature is never toggled on a sub-interface. */
    method CaptureEnableDisable(i: nat, d: int)
      modifies this`capture
      ensures capture == if IsSub(kinds, i) then old(capture) else Added(old(capture), i, d)
    {
      if IsSub(kinds, i) {
        return;
      }
      capture := Added(capture, i, d);
    }

    method HostXcEnableDisable(i: nat, d: int)
      modifies this`hostXcOn
      ensures hostXcOn == if IsSub(kinds, i) then old(hostXcOn) else Added(old(hostXcOn), i, d)
    {
      if IsSub(kinds, i) {
        return;
      }
      hostXcOn := Added(hostXcOn, i, d);
    }

    method SetPuntViaMember(on: bool)
      requires Valid()
      modifies this`puntViaMember, this`capture, this`captureEnabled, this`glean, this`gleanEnabled
      ensures Valid() && puntViaMember == on
      ensures captureEnabled == (old(captureEnabled) || on)
    {
      puntViaMember := on;
      if on && !captureEnabled {
        var k := 0;
        assert pairs[..0] == [];
        while k < |pairs|
          invariant k <= |pairs|
          invariant Counted(kinds, Capture, true, pairs[..k], capture)
          modifies this`capture
        {
          assert pairs[..k + 1][..k] == pairs[..k];
          if !IsAggregate(kinds, pairs[k].phy) {
            CaptureEnableDisable(pairs[k].phy, 1);
          }
          k := k + 1;
        }
        assert pairs[..k] == pairs;
        captureEnabled := true;
      }
      if on && !gleanEnabled {
        glean := glean + 1;
        gleanEnabled := true;
      }
    }

    method SetHostXc(on: bool)
      requires Valid()
      modifies this`hostXc, this`hostXcOn, this`hostXcEnabled
      ensures Valid() && hostXc == on
      ensures hostXcEnabled == (old(hostXcEnabled) || on)
    {
      hostXc := on;
      if on && !hostXcEnabled {
        var k := 0;
        assert pairs[..0] == [];
        while k < |pairs|
          invariant k <= |pairs|
          invariant Counted(kinds, HostXc, true, pairs[..k], hostXcOn)
          modifies this`hostXcOn
        {
          assert pairs[..k + 1][..k] == pairs[..k];
          HostXcEnableDisable(pairs[k].host, 1);
          k := k + 1;
        }
        assert pairs[..k] == pairs;
        hostXcEnabled := true;
      }
    }

    method PairAdd(p: Pair)
      requires Valid()
      modifies this`pairs, this`capture, this`hostXcOn, this`aggrTap
      ensures Valid() && pairs == old(pairs) + [p]
    {
      hide Counted, IsAggregate, IsSub;
      if captureEnabled && !IsAggregate(kinds, p.phy) {
        CaptureEnableDisable(p.phy, 1);
      }
      if hostXcEnabled {
        HostXcEnableDisable(p.host, 1);
      }
      if IsAggregate(kinds, p.phy) {
        aggrTap := Added(aggrTap, p.host, 1);
      }
      pairs := pairs + [p];
      if captureEnabled {
        CountedAdd(kinds, Capture, old(pairs), p, old(capture));
      } else {
        CountedUnarmed(kinds, Capture, old(pairs), pairs, capture);
      }
      if hostXcEnabled {
        CountedAdd(kinds, HostXc, old(pairs), p, old(hostXcOn));
      } else {
        CountedUnarmed(kinds, HostXc, old(pairs), pairs, hostXcOn);
      }
      CountedAdd(kinds, AggrTap, old(pairs), p, old(aggrTap));
    }

    method PairDel(k: nat)
      requires Valid() && k < |pairs|
      modifies this`pairs, this`capture, this`hostXcOn, this`aggrTap
      ensures Valid() && pairs == old(pairs)[..k] + old(pairs)[k + 1..]
    {
      hide Counted, IsAggregate, IsSub;
      var p := pairs[k];
      if captureEnabled && !IsAggregate(kinds, p.phy) {
        CaptureEnableDisable(p.phy, -1);
      }
      if hostXcEnabled {
        HostXcEnableDisable(p.host, -1);
      }
      if IsAggregate(kinds, p.phy) {
        aggrTap := Added(aggrTap, p.host, -1);
      }
      pairs := pairs[..k] + pairs[k + 1..];
      if captureEnabled {
        CountedDel(kinds, Capture, old(pairs), k, old(capture));
      } else {
        CountedUnarmed(kinds, Capture, old(pairs), pairs, capture);
      }
      if hostXcEnabled {
        CountedDel(kinds, HostXc, old(pairs), k, old(hostXcOn));
      } else {
        CountedUnarmed(kinds, HostXc, old(pairs), pairs, hostXcOn);
      }
      CountedDel(kinds, AggrTap, old(pairs), k, old(aggrTap));
    }

    /** Interfaces that no live pair names come, go and change kind. */
    method KindsChange(kinds': Kinds)
      requires Valid() && SamePairKinds(kinds, kinds', pairs)
      modifies this`kinds
      ensures Valid() && kinds == kinds'
    {
      hide Counted, IsAggregate, IsSub;
      CountedSame(kinds, kinds', Capture, captureEnabled, pairs, capture);
      CountedSame(kinds, kinds', HostXc, hostXcEnabled, pairs, hostXcOn);
      CountedSame(kinds, kinds', AggrTap, true, pairs, aggrTap);
      kinds := kinds';
    }

    /** One event. */
    method Step(e: Event)
      requires Valid() && (e.Reclassify? ==> SamePairKinds(kinds, e.kinds, pairs))
      modifies this
      ensures Valid() && kinds == if e.Reclassify? then e.kinds else old(kinds)
      ensures pairs == PairsAfter(old(pairs), e)
      ensures captureEnabled == (old(captureEnabled) || e == Punt(true))
      ensures hostXcEnabled == (old(hostXcEnabled) || e == Xc(true))
    {
      hide Counted, SamePairKinds;
      match e {
        case Punt(on) => SetPuntViaMember(on);
        case Xc(on) => SetHostXc(on);
        case Add(p) => PairAdd(p);
        case Del(k) =>
          if k < |pairs| {
            PairDel(k);
          }
        case Reclassify(kinds') => KindsChange(kinds');
      }
    }

    /** Any interleaving of toggles, pair events and changes of kind, from the start: each
        interface's counts depend only on the pairs alive, on what their interfaces are and
        on whether the toggle was ever switched on. */
    method Run(run: seq<Event>)
      requires Valid() && pairs == [] && !captureEnabled && !hostXcEnabled
      requires Steady(kinds, run)
      modifies this
      ensures Valid() && pairs == Alive(run) && kinds == KindsAfter(old(kinds), run)
      ensures Counted(kinds, Capture, EverOn(run, true), Alive(run), capture)
      ensures Counted(kinds, HostXc, EverOn(run, false), Alive(run), hostXcOn)
      ensures Counted(kinds, AggrTap, true, Alive(run), aggrTap)
    {
      hide Counted, SamePairKinds, PairsAfter;
      var j := 0;
      assert run[..0] == [];
      while j < |run|
        invariant j <= |run|
        invariant Valid() && pairs == Alive(run[..j]) && kinds == KindsAfter(old(kinds), run[..j])
        invariant captureEnabled == EverOn(run[..j], true) && hostXcEnabled == EverOn(run[..j], false)
      {
        assert run[..j + 1][..j] == run[..j];
        Step(run[j]);
        j := j + 1;
      }
      assert run[..j] == run;
    }
  }
}
