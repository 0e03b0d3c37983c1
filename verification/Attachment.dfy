/**
 Attaching and detaching a table, one memory write at a time.  The data plane may run
 between any two writes, so what it relies on must hold after each of them.
 */
module Attachment {
  import opened Basics

  /** The vector extended, if need be, so that index `i` exists. */
  function Grown<T>(v: seq<T>, i: nat, empty: T): (r: seq<T>)
    ensures i < |r| && v <= r
    ensures forall k :: |v| <= k < |r| ==> r[k] == empty
  {
    if i < |v| then v else v + seq(i + 1 - |v|, _ => empty)
  }

  predicate SetAt(v: seq<u32>, i: nat) { i < |v| && v[i] != NONE }

  /** Where a handler stands: the write it did last. */
  datatype Phase =
    | Idle
    | Grew6(add: bool, i: nat, t: u32)
    | Grew4(add: bool, i: nat, t: u32)
    | Wrote(i: nat, t: u32)
    | Disabled(i: nat, t: u32)

  /** Slot vectors, family flags and enable counts of the bypass feature. */
  datatype Config = Config(v4: seq<u32>, v6: seq<u32>, isV6: seq<bool>, bypass: map<nat, int>, phase: Phase)

  function WithSlot(s: Config, i: nat, t: u32, isV6: bool): Config
    requires i < |s.v4| && i < |s.v6|
  {
    if isV6 then s.(v6 := s.v6[i := t]) else s.(v4 := s.v4[i := t])
  }

  /** A handler starts by growing the v6 vector. */
  function Start(s: Config, add: bool, i: nat, t: u32): Config {
    s.(v6 := Grown(s.v6, i, NONE), phase := Grew6(add, i, t))
  }

  /** The handler in progress does its next write. */
  function Continue(s: Config): Config
    requires s.phase != Idle
    requires s.phase.t < |s.isV6| && s.phase.i < |s.v6|
    requires !s.phase.Grew6? ==> s.phase.i < |s.v4|
  {
    match s.phase
    case Grew6(add, i, t) =>
      s.(v4 := Grown(s.v4, i, NONE), phase := Grew4(add, i, t))
    case Grew4(true, i, t) =>
      WithSlot(s, i, t, s.isV6[t]).(phase := Wrote(i, t))
    case Wrote(i, t) =>
      s.(bypass := if Count(s.bypass, i) > 0 then s.bypass else Added(s.bypass, i, 1), phase := Idle)
    case Grew4(false, i, t) =>
      if t != s.v4[i] && t != s.v6[i] then s.(phase := Idle)
      else if s.v4[i] == NONE || s.v6[i] == NONE
      then s.(bypass := Added(s.bypass, i, -1), phase := Disabled(i, t))
      else s.(phase := Disabled(i, t))
    case Disabled(i, t) =>
      WithSlot(s, i, NONE, s.isV6[t]).(phase := Idle)
  }

  /** Indicator of a set slot. */
  function Wanted(s: Config, i: nat): int { if SetAt(s.v4, i) || SetAt(s.v6, i) then 1 else 0 }

  /** Set slots hold tables flagged with their own family. */
  ghost predicate Sorted(s: Config) {
    && (forall i: nat :: SetAt(s.v4, i) ==> s.v4[i] < |s.isV6| && !s.isV6[s.v4[i]])
    && (forall i: nat :: SetAt(s.v6, i) ==> s.v6[i] < |s.isV6| && s.isV6[s.v6[i]])
  }

  /** What is known after each write. */
  ghost predicate Inv(s: Config) {
    && Sorted(s)
    && (forall i: nat :: Wanted(s, i) > 0 ==> i < |s.v4| && i < |s.v6|)
    && (s.phase != Idle ==>
          && s.phase.t != NONE && s.phase.t < |s.isV6| && s.phase.i < |s.v6|
          && (!s.phase.Grew6? ==> s.phase.i < |s.v4|))
    && (forall i: nat :: !((s.phase.Wrote? || s.phase.Disabled?) && i == s.phase.i) ==>
          Count(s.bypass, i) == Wanted(s, i))
    && (s.phase.Wrote? ==>
          Wanted(s, s.phase.i) == 1 && 0 <= Count(s.bypass, s.phase.i) <= 1)
    && (s.phase.Disabled? ==>
          var i, t := s.phase.i, s.phase.t;
          && (s.v4[i] == t || s.v6[i] == t)
          && Count(s.bypass, i) == if SetAt(s.v4, i) && SetAt(s.v6, i) then 1 else 0)
  }

  /** What the node relies on: an interface with the feature enabled indexes both vectors and
      has some table. */
  ghost predicate NodeSafe(s: Config) {
    forall i: nat :: Count(s.bypass, i) > 0 ==>
      i < |s.v4| && i < |s.v6| && (s.v4[i] != NONE || s.v6[i] != NONE)
  }

  /** One write: of the handler in progress, of a handler that starts, or of the family flag
      of a table no slot names. */
  ghost predicate Next(s: Config, s': Config) {
    || (s.phase != Idle && s.phase.t < |s.isV6| && s.phase.i < |s.v6|
        && (!s.phase.Grew6? ==> s.phase.i < |s.v4|) && s' == Continue(s))
    || (s.phase == Idle && exists add, i, t: u32 :: t != NONE && t < |s.isV6| && s' == Start(s, add, i, t))
    || (s.phase == Idle && exists isV6: seq<bool> :: s' == s.(isV6 := isV6) && Sorted(s'))
  }

  /** A write for one interface leaves the others as they were. */
  ghost predicate OthersKept(s: Config, s': Config, i: nat) {
    forall j: nat :: j != i ==> Wanted(s', j) == Wanted(s, j) && Count(s'.bypass, j) == Count(s.bypass, j)
  }

  lemma GrowKeepsInv(s: Config)
    requires Inv(s) && s.phase.Grew6?
    ensures Inv(Continue(s))
  {
    forall j: nat
      ensures Wanted(Continue(s), j) == Wanted(s, j)
    {
    }
  }

  lemma WriteKeepsInv(s: Config)
    requires Inv(s) && s.phase.Grew4? && s.phase.add
    ensures Inv(Continue(s))
  {
    assert OthersKept(s, Continue(s), s.phase.i);
  }

  lemma EnableKeepsInv(s: Config)
    requires Inv(s) && s.phase.Wrote?
    ensures Inv(Continue(s))
  {
    assert OthersKept(s, Continue(s), s.phase.i);
  }

  lemma DisableKeepsInv(s: Config)
    requires Inv(s) && s.phase.Grew4? && !s.phase.add
    ensures Inv(Continue(s))
  {
    assert OthersKept(s, Continue(s), s.phase.i);
  }

  lemma ClearKeepsInv(s: Config)
    requires Inv(s) && s.phase.Disabled?
    ensures Inv(Continue(s))
  {
    assert OthersKept(s, Continue(s), s.phase.i);
    assert Wanted(s, s.phase.i) > 0;
  }

  lemma ContinueKeepsInv(s: Config)
    requires Inv(s) && s.phase != Idle
    ensures Inv(Continue(s))
  {
    assert s.phase.t < |s.isV6| && s.phase.i < |s.v6| && (!s.phase.Grew6? ==> s.phase.i < |s.v4|);
    hide Inv, Continue;
    match s.phase
    case Grew6(_, _, _) => GrowKeepsInv(s);
    case Grew4(true, _, _) => WriteKeepsInv(s);
    case Grew4(false, _, _) => DisableKeepsInv(s);
    case Wrote(_, _) => EnableKeepsInv(s);
    case Disabled(_, _) => ClearKeepsInv(s);
  }

  lemma StartKeepsInv(s: Config, add: bool, i: nat, t: u32)
    requires Inv(s) && s.phase == Idle && t != NONE && t < |s.isV6|
    ensures Inv(Start(s, add, i, t))
  {
    forall j: nat
      ensures Wanted(Start(s, add, i, t), j) == Wanted(s, j)
    {
    }
  }

  ghost predicate IsRun(run: seq<Config>) {
    run != [] && forall k :: 0 < k < |run| ==> Next(run[k - 1], run[k])
  }

  lemma {:induction false} RunKeepsInv(run: seq<Config>)
    requires IsRun(run) && Inv(run[0])
    ensures forall k :: 0 <= k < |run| ==> Inv(run[k])
    decreases |run|
  {
    if |run| > 1 {
      var n := |run| - 1;
      RunKeepsInv(run[..n]);
      assert Inv(run[..n][n - 1]) && Next(run[n - 1], run[n]);
      NextKeepsInv(run[n - 1], run[n]);
      forall k | 0 <= k < n
        ensures Inv(run[k])
      {
        assert run[k] == run[..n][k];
      }
    }
  }

  lemma NextKeepsInv(s: Config, s': Config)
    requires Inv(s) && Next(s, s')
    ensures Inv(s')
  {
    if s.phase != Idle {
      ContinueKeepsInv(s);
    } else if add, i, t: u32 :| t != NONE && t < |s.isV6| && s' == Start(s, add, i, t) {
      StartKeepsInv(s, add, i, t);
    } else {
      assert forall j: nat :: Wanted(s', j) == Wanted(s, j);
    }
  }

  /** After every single write of every run the node is safe, and between handlers the feature
      is enabled, once, exactly where some slot is set. */
  lemma EveryWriteIsSafe(run: seq<Config>, k: nat)
    requires IsRun(run) && Inv(run[0]) && k < |run|
    ensures NodeSafe(run[k])
    ensures run[k].phase == Idle ==> forall i: nat :: Count(run[k].bypass, i) == Wanted(run[k], i)
  {
    RunKeepsInv(run);
    InvIsSafe(run[k]);
  }

  lemma InvIsSafe(s: Config)
    requires Inv(s)
    ensures NodeSafe(s)
  {
    forall i: nat | Count(s.bypass, i) > 0
      ensures i < |s.v4| && i < |s.v6| && (s.v4[i] != NONE || s.v6[i] != NONE)
    {
      assert Wanted(s, i) > 0;
    }
  }

  // ----- The two handlers, start to end -----

  function AttachRun(s: Config, i: nat, t: u32): (run: seq<Config>)
    requires t < |s.isV6|
    ensures |run| == 5
  {
    var s1 := Start(s, true, i, t);
    var s2 := Continue(s1);
    var s3 := Continue(s2);
    [s, s1, s2, s3, Continue(s3)]
  }

  function DetachRun(s: Config, i: nat, t: u32): (run: seq<Config>)
    requires t < |s.isV6|
    ensures 4 <= |run| <= 5
  {
    var s1 := Start(s, false, i, t);
    var s2 := Continue(s1);
    var s3 := Continue(s2);
    if s3.phase == Idle then [s, s1, s2, s3] else [s, s1, s2, s3, Continue(s3)]
  }

  lemma AttachIsRun(s: Config, i: nat, t: u32)
    requires s.phase == Idle && t != NONE && t < |s.isV6|
    ensures IsRun(AttachRun(s, i, t))
  {
    var s1 := Start(s, true, i, t);
    assert Next(s, s1) && Next(s1, Continue(s1)) && Next(Continue(s1), Continue(Continue(s1)));
  }

  lemma DetachIsRun(s: Config, i: nat, t: u32)
    requires s.phase == Idle && t != NONE && t < |s.isV6|
    ensures IsRun(DetachRun(s, i, t))
  {
    var s1 := Start(s, false, i, t);
    assert Next(s, s1) && Next(s1, Continue(s1)) && Next(Continue(s1), Continue(Continue(s1)));
  }

  lemma HandlersAreRuns(s: Config, i: nat, t: u32)
    requires s.phase == Idle && t != NONE && t < |s.isV6|
    ensures IsRun(AttachRun(s, i, t)) && IsRun(DetachRun(s, i, t))
  {
    hide IsRun, AttachRun, DetachRun;
    AttachIsRun(s, i, t);
    DetachIsRun(s, i, t);
  }

  function Last(run: seq<Config>): Config
    requires run != []
  {
    run[|run| - 1]
  }

  lemma AttachEnds(s: Config, i: nat, t: u32)
    requires Inv(s) && s.phase == Idle && t != NONE && t < |s.isV6|
    ensures var s' := Last(AttachRun(s, i, t));
            && Inv(s') && s'.phase == Idle
            && s'.v4 == (if s.isV6[t] then Grown(s.v4, i, NONE) else Grown(s.v4, i, NONE)[i := t])
            && s'.v6 == (if s.isV6[t] then Grown(s.v6, i, NONE)[i := t] else Grown(s.v6, i, NONE))
  {
    HandlersAreRuns(s, i, t);
    RunKeepsInv(AttachRun(s, i, t));
  }

  lemma DetachEnds(s: Config, i: nat, t: u32)
    requires Inv(s) && s.phase == Idle && t != NONE && t < |s.isV6|
    ensures var s' := Last(DetachRun(s, i, t));
            var in4, in6 := SetAt(s.v4, i) && s.v4[i] == t, SetAt(s.v6, i) && s.v6[i] == t;
            && Inv(s') && s'.phase == Idle
            && s'.v4 == (if in4 then Grown(s.v4, i, NONE)[i := NONE] else Grown(s.v4, i, NONE))
            && s'.v6 == (if in6 then Grown(s.v6, i, NONE)[i := NONE] else Grown(s.v6, i, NONE))
            && !(in4 && in6)
            && (!in4 && !in6 ==> |DetachRun(s, i, t)| == 4)
            && (in4 || in6 ==> |DetachRun(s, i, t)| == 5)
  {
    HandlersAreRuns(s, i, t);
    RunKeepsInv(DetachRun(s, i, t));
  }
}
