/**
 What a user of the tunnel-termination ACL sees, as a state machine over values: tables of
 rules, one optional table per interface and family, and the interfaces on which the
 bypass feature is enabled.  An event is one API request that passed its argument checks,
 a FIB change or a FIB back-walk.  The handlers of module ControlPlane refine it.
 */
module AclMachine {
  import opened Basics
  import opened Redirects

  type Addr4 = a: seq<byte> | |a| == 4 witness [0, 0, 0, 0]
  type Addr6 = a: seq<byte> | |a| == 16 witness seq(16, _ => 0)

  datatype Ip = Ip4(a4: Addr4) | Ip6(a6: Addr6)

  /** What decoding the path of a rule yields. */
  datatype Decoded = Good(path: Path) | Bad(code: int)

  datatype Rule = Rule(path: Decoded, dst: Ip)

  datatype AclTable = AclTable(isV6: bool, rules: map<seq<byte>, Target>)

  datatype Acl = Acl(
    tables: map<u32, AclTable>,
    v4: map<nat, u32>,
    v6: map<nat, u32>,
    enabled: set<nat>,
    forwarding: (Path, Payload) -> Dpo)

  datatype Event =
    | Create(t: u32, isV6: bool, rules: seq<Rule>)
    | Replace(t: u32, isV6: bool, rules: seq<Rule>)
    | Delete(t: u32)
    | Attach(i: nat, t: u32)
    | Detach(i: nat, t: u32)
    | FibChange(f: (Path, Payload) -> Dpo)
    | BackWalk(t: u32, m: seq<byte>)

  // ----- Rules -----

  function PatternOf(ip: Ip): (r: seq<byte>)
    ensures |r| == VECTOR_SIZE
  {
    match ip
    case Ip4(a) => a + [0, 0, 0, 0, 0, 0, 0, 0, 0, 0, 0, 0]
    case Ip6(a) => a
  }

  function PayloadOf(isV6: bool): Payload { if isV6 then UnicastIp6 else UnicastIp4 }

  predicate Accepts(isV6: bool, r: Rule) { r.path.Good? && r.dst.Ip6? == isV6 }

  /** How many leading rules are accepted: the rules before the first bad one. */
  function Accepted(isV6: bool, rules: seq<Rule>): (n: nat)
    ensures n <= |rules|
    ensures forall i :: 0 <= i < n ==> Accepts(isV6, rules[i])
    ensures n < |rules| ==> !Accepts(isV6, rules[n])
  {
    if rules == [] || !Accepts(isV6, rules[0]) then 0 else 1 + Accepted(isV6, rules[1..])
  }

  function TargetOf(f: (Path, Payload) -> Dpo, isV6: bool, r: Rule): Target
    requires Accepts(isV6, r)
  {
    Target(r.path.path, f(r.path.path, PayloadOf(isV6)))
  }

  /** The bindings that adding the rules in order leaves behind. */
  function Bindings(f: (Path, Payload) -> Dpo, isV6: bool, rules: seq<Rule>): map<seq<byte>, Target>
    requires forall i :: 0 <= i < |rules| ==> Accepts(isV6, rules[i])
  {
    if rules == [] then map[]
    else
      var r := rules[|rules| - 1];
      Bindings(f, isV6, rules[..|rules| - 1])[PatternOf(r.dst) := TargetOf(f, isV6, r)]
  }

  /** The last rule for an address, or -1. */
  function LastRule(rules: seq<Rule>, ip: Ip): (j: int)
    ensures -1 <= j < |rules|
    ensures j >= 0 ==> rules[j].dst == ip
    ensures forall k :: j < k < |rules| ==> rules[k].dst != ip
  {
    if rules == [] then -1
    else if rules[|rules| - 1].dst == ip then |rules| - 1
    else LastRule(rules[..|rules| - 1], ip)
  }

  /** The last rule for an address wins, and only addresses of rules are bound. */
  lemma {:induction false} LastRuleWins(f: (Path, Payload) -> Dpo, isV6: bool, rules: seq<Rule>, ip: Ip)
    requires forall i :: 0 <= i < |rules| ==> Accepts(isV6, rules[i])
    requires ip.Ip6? == isV6
    ensures var bound, j := Bindings(f, isV6, rules), LastRule(rules, ip);
            && (PatternOf(ip) in bound <==> j >= 0)
            && (j >= 0 ==> bound[PatternOf(ip)] == TargetOf(f, isV6, rules[j]))
  {
    if rules != [] {
      LastRuleWins(f, isV6, rules[..|rules| - 1], ip);
      PatternsDiffer(ip, rules[|rules| - 1].dst);
    }
  }

  /** Padding keeps the addresses of one family apart. */
  lemma PatternsDiffer(a: Ip, b: Ip)
    requires a.Ip6? == b.Ip6?
    ensures PatternOf(a) == PatternOf(b) <==> a == b
  {
    if PatternOf(a) == PatternOf(b) && a.Ip4? {
      assert a.a4 == PatternOf(a)[..4] && b.a4 == PatternOf(b)[..4];
    }
  }

  // ----- Steps -----

  /** What the handlers demand of their callers: attach and replace name live tables. */
  predicate Legal(s: Acl, e: Event) {
    match e
    case Create(t, _, _) => t !in s.tables && t != NONE
    case Replace(t, _, _) => t in s.tables
    case Attach(_, t) => t in s.tables
    case Delete(t) => t != NONE
    case Detach(_, t) => t != NONE
    case FibChange(_) => true
    case BackWalk(t, m) => t in s.tables && m in s.tables[t].rules
  }

  function Refilled(s: Acl, t: u32, isV6: bool, rules: seq<Rule>): AclTable
    requires t in s.tables
  {
    if rules != [] && s.tables[t].isV6 != isV6 then s.tables[t]
    else s.tables[t].(rules := Bindings(s.forwarding, isV6, rules[..Accepted(isV6, rules)]))
  }

  predicate InUse(s: Acl, t: u32) { t in s.v4.Values || t in s.v6.Values }

  /** The attach handler's writes.  It takes the family from its own flag vector and does not
      look whether the table is live. */
  function Attached(s: Acl, i: nat, t: u32, isV6: bool): Acl {
    if isV6
    then s.(v6 := s.v6[i := t], enabled := s.enabled + {i})
    else s.(v4 := s.v4[i := t], enabled := s.enabled + {i})
  }

  function Apply(s: Acl, e: Event): Acl
    requires Legal(s, e)
  {
    match e
    case Create(t, isV6, rules) =>
      var s' := s.(tables := s.tables[t := AclTable(isV6, map[])]);
      s'.(tables := s'.tables[t := Refilled(s', t, isV6, rules)])
    case Replace(t, isV6, rules) =>
      s.(tables := s.tables[t := Refilled(s, t, isV6, rules)])
    case Delete(t) =>
      if InUse(s, t) then s else s.(tables := s.tables - {t})
    case Attach(i, t) =>
      Attached(s, i, t, s.tables[t].isV6)
    case Detach(i, t) =>
      if i in s.v4 && s.v4[i] == t
      then s.(v4 := s.v4 - {i}, enabled := if i in s.v6 then s.enabled else s.enabled - {i})
      else if i in s.v6 && s.v6[i] == t
      then s.(v6 := s.v6 - {i}, enabled := if i in s.v4 then s.enabled else s.enabled - {i})
      else s
    case FibChange(f) =>
      s.(forwarding := f)
    case BackWalk(t, m) =>
      var table := s.tables[t];
      var path := table.rules[m].path;
      var dpo := s.forwarding(path, PayloadOf(table.isV6));
      s.(tables := s.tables[t := table.(rules := table.rules[m := Target(path, dpo)])])
  }

  // ----- Runs -----

  function Fresh(f: (Path, Payload) -> Dpo): Acl { Acl(map[], map[], map[], {}, f) }

  predicate LegalRun(s: Acl, run: seq<Event>)
    decreases run
  {
    run == [] || (Legal(s, run[0]) && LegalRun(Apply(s, run[0]), run[1..]))
  }

  function After(s: Acl, run: seq<Event>): Acl
    requires LegalRun(s, run)
    decreases run
  {
    if run == [] then s else After(Apply(s, run[0]), run[1..])
  }

  /** Every slot names a live table of its own family, and the feature is on exactly where some
      slot is set. */
  ghost predicate Inv(s: Acl) {
    && (forall i :: i in s.v4 ==> s.v4[i] in s.tables && !s.tables[s.v4[i]].isV6)
    && (forall i :: i in s.v6 ==> s.v6[i] in s.tables && s.tables[s.v6[i]].isV6)
    && s.enabled == s.v4.Keys + s.v6.Keys
    && NONE !in s.tables
  }

  lemma StepKeepsInv(s: Acl, e: Event)
    requires Inv(s) && Legal(s, e)
    ensures Inv(Apply(s, e))
  {
  }

  lemma {:induction false} RunKeepsInv(s: Acl, run: seq<Event>)
    requires Inv(s) && LegalRun(s, run)
    ensures Inv(After(s, run))
    decreases run
  {
    if run != [] {
      StepKeepsInv(s, run[0]);
      RunKeepsInv(Apply(s, run[0]), run[1..]);
    }
  }

  /** In every state any run reaches, including runs that reuse freed table indices, the
      invariant holds. */
  lemma ReachableInv(f: (Path, Payload) -> Dpo, run: seq<Event>)
    requires LegalRun(Fresh(f), run)
    ensures Inv(After(Fresh(f), run))
  {
    RunKeepsInv(Fresh(f), run);
  }

  /** Attaching keeps the invariant exactly when the table is live and the flag is its family. */
  lemma AttachNeedsLiveTable(s: Acl, i: nat, t: u32, isV6: bool)
    requires Inv(s)
    ensures Inv(Attached(s, i, t, isV6)) <==> t in s.tables && s.tables[t].isV6 == isV6
  {
    var s' := Attached(s, i, t, isV6);
    assert (if isV6 then s'.v6 else s'.v4)[i] == t;
  }

  // ----- What a run keeps -----

  ghost predicate LiveThroughout(s: Acl, run: seq<Event>, t: u32)
    requires LegalRun(s, run)
    decreases run
  {
    t in s.tables && (run != [] ==> LiveThroughout(Apply(s, run[0]), run[1..], t))
  }

  /** As long as a table stays live its family does not change. */
  lemma {:induction false} FamilyIsStable(s: Acl, run: seq<Event>, t: u32)
    requires LegalRun(s, run) && LiveThroughout(s, run, t)
    ensures t in After(s, run).tables && After(s, run).tables[t].isV6 == s.tables[t].isV6
    decreases run
  {
    if run != [] {
      FamilyIsStable(Apply(s, run[0]), run[1..], t);
    }
  }

  /** A freed index may come back under the other family, so no more can be said. */
  lemma FamilyMayFlipOnReuse(f: (Path, Payload) -> Dpo)
    ensures var run := [Create(0, false, []), Delete(0), Create(0, true, [])];
            && LegalRun(Fresh(f), run)
            && LegalRun(Fresh(f), run[..1])
            && 0 in After(Fresh(f), run[..1]).tables && !After(Fresh(f), run[..1]).tables[0].isV6
            && 0 in After(Fresh(f), run).tables && After(Fresh(f), run).tables[0].isV6
  {
    var run := [Create(0, false, []), Delete(0), Create(0, true, [])];
    var s1 := Apply(Fresh(f), run[0]);
    var s2 := Apply(s1, run[1]);
    var s3 := Apply(s2, run[2]);
    assert run[1..][0] == run[1] && run[1..][1..] == [run[2]] && run[..1] == [run[0]];
    assert After(s2, [run[2]]) == After(s3, []) && [run[2]][1..] == [];
    assert After(Fresh(f), run[..1]) == s1;
    assert After(Fresh(f), run) == s3;
  }

  predicate Rewrites(e: Event, t: u32) {
    (e.Create? || e.Replace? || e.Delete?) && e.t == t
  }

  /** Other traffic, including FIB changes, back-walks and every other table's life cycle,
      neither adds nor drops a rule of the table, nor changes a rule's path. */
  lemma {:induction false} RulesSurvive(s: Acl, run: seq<Event>, t: u32)
    requires LegalRun(s, run) && t in s.tables
    requires forall k :: 0 <= k < |run| ==> !Rewrites(run[k], t)
    ensures var s' := After(s, run);
            && t in s'.tables
            && s'.tables[t].rules.Keys == s.tables[t].rules.Keys
            && forall m :: m in s.tables[t].rules ==> s'.tables[t].rules[m].path == s.tables[t].rules[m].path
    decreases run
  {
    if run != [] {
      assert !Rewrites(run[0], t);
      RulesSurvive(Apply(s, run[0]), run[1..], t);
    }
  }

  // ----- Catching up with the FIB -----

  /** If the rule exists, its target is what the FIB resolves its path to now. */
  ghost predicate Current(s: Acl, t: u32, m: seq<byte>) {
    t in s.tables && m in s.tables[t].rules ==>
      s.tables[t].rules[m].dpo == s.forwarding(s.tables[t].rules[m].path, PayloadOf(s.tables[t].isV6))
  }

  lemma {:induction false} BindingsAreCurrent(f: (Path, Payload) -> Dpo, isV6: bool, rules: seq<Rule>, m: seq<byte>)
    requires forall i :: 0 <= i < |rules| ==> Accepts(isV6, rules[i])
    ensures m in Bindings(f, isV6, rules) ==>
              Bindings(f, isV6, rules)[m].dpo == f(Bindings(f, isV6, rules)[m].path, PayloadOf(isV6))
  {
    if rules != [] {
      BindingsAreCurrent(f, isV6, rules[..|rules| - 1], m);
    }
  }

  lemma StepKeepsCurrent(s: Acl, e: Event, t: u32, m: seq<byte>)
    requires Legal(s, e) && !e.FibChange?
    requires Current(s, t, m) || e == BackWalk(t, m)
    ensures Current(Apply(s, e), t, m)
  {
    if e.Create? || e.Replace? {
      hide Bindings;
      BindingsAreCurrent(s.forwarding, e.isV6, e.rules[..Accepted(e.isV6, e.rules)], m);
      if e.rules == [] {
        assert e.rules[..Accepted(e.isV6, e.rules)] == [];
        NoBindings(s.forwarding, e.isV6);
      }
    }
  }

  lemma NoBindings(f: (Path, Payload) -> Dpo, isV6: bool)
    ensures Bindings(f, isV6, []) == map[]
  {
  }

  /** While the FIB does not change again, a rule that was current, or that a back-walk has
      reached since, is current, whatever else happens to tables and interfaces. */
  lemma {:induction false} BackWalkCatchesUp(s: Acl, run: seq<Event>, t: u32, m: seq<byte>)
    requires LegalRun(s, run) && forall k :: 0 <= k < |run| ==> !run[k].FibChange?
    requires Current(s, t, m) || BackWalk(t, m) in run
    ensures Current(After(s, run), t, m)
    decreases run
  {
    if run != [] {
      hide Apply, Legal, Current;
      if Current(s, t, m) || run[0] == BackWalk(t, m) {
        StepKeepsCurrent(s, run[0], t, m);
      }
      BackWalkCatchesUp(Apply(s, run[0]), run[1..], t, m);
    }
  }

  /** Does this event fill the table with new rules?  A replace of the wrong family is rejected,
      unless it has no rules. */
  predicate Fills(s: Acl, e: Event, t: u32)
    requires Legal(s, e)
  {
    (e.Create? || (e.Replace? && (e.rules == [] || s.tables[e.t].isV6 == e.isV6))) && e.t == t
  }

  lemma FillIsCurrent(s: Acl, e: Event, t: u32, m: seq<byte>)
    requires Legal(s, e) && Fills(s, e, t)
    ensures Current(Apply(s, e), t, m)
  {
    hide Bindings;
    var good := e.rules[..Accepted(e.isV6, e.rules)];
    BindingsAreCurrent(s.forwarding, e.isV6, good, m);
    if e.rules == [] {
      assert good == [];
      NoBindings(s.forwarding, e.isV6);
    }
  }

  /** As far as the table is of this family, its rule is current. */
  ghost predicate CurrentIn(s: Acl, t: u32, m: seq<byte>, isV6: bool) {
    t in s.tables && s.tables[t].isV6 == isV6 ==> Current(s, t, m)
  }

  lemma StepKeepsCurrentIn(s: Acl, e: Event, t: u32, m: seq<byte>, isV6: bool)
    requires Legal(s, e) && !e.FibChange? && CurrentIn(s, t, m, isV6)
    ensures CurrentIn(Apply(s, e), t, m, isV6)
  {
    hide Bindings, Refilled;
    if e.Create? && e.t == t {
      FillIsCurrent(s, e, t, m);
    } else if Current(s, t, m) {
      StepKeepsCurrent(s, e, t, m);
    } else if e.Replace? {
      RefillKeepsFamily(s, e.t, e.isV6, e.rules);
    }
  }

  lemma {:induction false} StaysCurrentIn(s: Acl, run: seq<Event>, t: u32, m: seq<byte>, isV6: bool)
    requires LegalRun(s, run) && CurrentIn(s, t, m, isV6)
    requires forall k :: 0 <= k < |run| ==> !run[k].FibChange?
    ensures CurrentIn(After(s, run), t, m, isV6)
    decreases run
  {
    if run != [] {
      hide Apply, Legal, CurrentIn;
      StepKeepsCurrentIn(s, run[0], t, m, isV6);
      StaysCurrentIn(Apply(s, run[0]), run[1..], t, m, isV6);
    }
  }

  /** A back-walk to the rule, the creation of its table and a replace under the table's family
      bring the rule up to date. */
  predicate Refreshes(e: Event, t: u32, m: seq<byte>, isV6: bool) {
    || e == BackWalk(t, m)
    || (e.Create? && e.t == t)
    || (e.Replace? && e.t == t && e.isV6 == isV6)
  }

  lemma RefreshIsCurrentIn(s: Acl, e: Event, t: u32, m: seq<byte>, isV6: bool)
    requires Legal(s, e) && Refreshes(e, t, m, isV6)
    ensures CurrentIn(Apply(s, e), t, m, isV6)
  {
    hide Bindings, Refilled;
    if e.BackWalk? {
      StepKeepsCurrent(s, e, t, m);
    } else if e.Create? || s.tables[t].isV6 == isV6 {
      FillIsCurrent(s, e, t, m);
    } else {
      RefillKeepsFamily(s, t, e.isV6, e.rules);
    }
  }

  lemma RefillKeepsFamily(s: Acl, t: u32, isV6: bool, rules: seq<Rule>)
    requires t in s.tables
    ensures Refilled(s, t, isV6, rules).isV6 == s.tables[t].isV6
  {
  }

  lemma {:induction false} RefreshedIsCurrentIn(s: Acl, run: seq<Event>, n: nat, t: u32, m: seq<byte>, isV6: bool)
    requires LegalRun(s, run) && n < |run| && Refreshes(run[n], t, m, isV6)
    requires forall k :: n < k < |run| ==> !run[k].FibChange?
    ensures CurrentIn(After(s, run), t, m, isV6)
    decreases run
  {
    hide Apply, Legal, CurrentIn, Refreshes;
    if n == 0 {
      RefreshIsCurrentIn(s, run[0], t, m, isV6);
      StaysCurrentIn(Apply(s, run[0]), run[1..], t, m, isV6);
    } else {
      RefreshedIsCurrentIn(Apply(s, run[0]), run[1..], n - 1, t, m, isV6);
    }
  }

  // ----- What the data plane should do -----

  function TableFor(s: Acl, i: nat, isV6: bool): Option<u32> {
    var slots := if isV6 then s.v6 else s.v4;
    if i in slots then Some(slots[i]) else None
  }

  /** The target of a packet for `ip` that arrived on interface `i`, if it is redirected. */
  function Redirect(s: Acl, i: nat, ip: Ip): Option<Target> {
    var t := TableFor(s, i, ip.Ip6?);
    if t.Some? && t.value in s.tables && PatternOf(ip) in s.tables[t.value].rules
    then Some(s.tables[t.value].rules[PatternOf(ip)])
    else None
  }

  // ----- Which rules the user last gave -----

  /** The user's record of each live table: the rules before the first bad one in the last
      request that filled it. */
  function Noted(s: Acl, given: map<u32, seq<Rule>>, e: Event): map<u32, seq<Rule>>
    requires Legal(s, e)
  {
    match e
    case Create(t, isV6, rules) => given[t := rules[..Accepted(isV6, rules)]]
    case Replace(t, isV6, rules) => if Fills(s, e, t) then given[t := rules[..Accepted(isV6, rules)]] else given
    case Delete(t) => if InUse(s, t) then given else given - {t}
    case _ => given
  }

  function Given(s: Acl, given: map<u32, seq<Rule>>, run: seq<Event>): map<u32, seq<Rule>>
    requires LegalRun(s, run)
    decreases run
  {
    if run == [] then given else Given(Apply(s, run[0]), Noted(s, given, run[0]), run[1..])
  }

  /** The table redirects an address exactly when one of the rules has it, along the path of
      the last such rule. */
  ghost predicate Obeys(table: AclTable, rules: seq<Rule>) {
    && (forall j :: 0 <= j < |rules| ==> Accepts(table.isV6, rules[j]))
    && forall ip: Ip :: ip.Ip6? == table.isV6 ==>
         var m, j := PatternOf(ip), LastRule(rules, ip);
         && (m in table.rules <==> j >= 0)
         && (j >= 0 ==> Good(table.rules[m].path) == rules[j].path)
  }

  ghost predicate AllObey(s: Acl, given: map<u32, seq<Rule>>) {
    given.Keys == s.tables.Keys && forall t :: t in given ==> Obeys(s.tables[t], given[t])
  }

  lemma FilledObeys(f: (Path, Payload) -> Dpo, table: AclTable, isV6: bool, rules: seq<Rule>)
    requires rules == [] || table.isV6 == isV6
    ensures var good := rules[..Accepted(isV6, rules)];
            Obeys(table.(rules := Bindings(f, isV6, good)), good)
  {
    hide Bindings, PatternOf, LastRule;
    var good := rules[..Accepted(isV6, rules)];
    var table' := table.(rules := Bindings(f, isV6, good));
    forall ip: Ip | ip.Ip6? == table.isV6
      ensures var m, j := PatternOf(ip), LastRule(good, ip);
              && (m in table'.rules <==> j >= 0)
              && (j >= 0 ==> Good(table'.rules[m].path) == good[j].path)
    {
      if rules == [] {
        assert good == [];
        NoBindings(f, isV6);
      } else {
        LastRuleWins(f, isV6, good, ip);
      }
    }
  }

  lemma BackWalkObeys(table: AclTable, rules: seq<Rule>, m: seq<byte>, dpo: Dpo)
    requires Obeys(table, rules) && m in table.rules
    ensures Obeys(table.(rules := table.rules[m := Target(table.rules[m].path, dpo)]), rules)
  {
    hide PatternOf, LastRule;
  }

  lemma StepObeys(s: Acl, given: map<u32, seq<Rule>>, e: Event)
    requires AllObey(s, given) && Legal(s, e)
    ensures AllObey(Apply(s, e), Noted(s, given, e))
  {
    hide Obeys, Bindings;
    match e
    case Create(t, isV6, rules) => FilledObeys(s.forwarding, AclTable(isV6, map[]), isV6, rules);
    case Replace(t, isV6, rules) =>
      if Fills(s, e, t) {
        FilledObeys(s.forwarding, s.tables[t], isV6, rules);
      }
    case BackWalk(t, m) =>
      var table := s.tables[t];
      BackWalkObeys(table, given[t], m, s.forwarding(table.rules[m].path, PayloadOf(table.isV6)));
    case _ =>
  }

  lemma {:induction false} RunObeys(s: Acl, given: map<u32, seq<Rule>>, run: seq<Event>)
    requires AllObey(s, given) && LegalRun(s, run)
    ensures AllObey(After(s, run), Given(s, given, run))
    decreases run
  {
    hide AllObey, Apply, Noted, Legal;
    if run != [] {
      StepObeys(s, given, run[0]);
      RunObeys(Apply(s, run[0]), Noted(s, given, run[0]), run[1..]);
    }
  }

  /** In every state any run reaches, a packet is redirected exactly when a table of its family
      is attached to its interface and the rules that table was last given have its address,
      and then along the path of the last such rule. */
  lemma RedirectFollowsLastRule(f: (Path, Payload) -> Dpo, run: seq<Event>, i: nat, ip: Ip)
    requires LegalRun(Fresh(f), run)
    ensures var s, given := After(Fresh(f), run), Given(Fresh(f), map[], run);
            var t, r := TableFor(s, i, ip.Ip6?), Redirect(s, i, ip);
            && given.Keys == s.tables.Keys
            && (t.Some? ==> t.value in given)
            && (r.Some? <==> t.Some? && LastRule(given[t.value], ip) >= 0)
            && (r.Some? ==> given[t.value][LastRule(given[t.value], ip)].path == Good(r.value.path))
  {
    hide LegalRun, After, Given, PatternOf, LastRule;
    ReachableInv(f, run);
    RunObeys(Fresh(f), map[], run);
  }

  /** A redirected packet goes where the FIB resolves the path of its rule now, on the IPv4 chain for
      an IPv4 destination and on the IPv6 chain for an IPv6 one, if the FIB has not changed since
      event `n` of the run, where `n` is the creation of the attached table, a replace of its
      rules or a back-walk to the rule, or since the start, where `n` is -1. */
  lemma RedirectFollowsFib(f: (Path, Payload) -> Dpo, run: seq<Event>, i: nat, ip: Ip, n: int)
    requires LegalRun(Fresh(f), run) && -1 <= n < |run|
    requires forall k :: n < k < |run| ==> !run[k].FibChange?
    ensures var s := After(Fresh(f), run);
            var t, r := TableFor(s, i, ip.Ip6?), Redirect(s, i, ip);
            r.Some? && (|| n == -1
                        || run[n] == BackWalk(t.value, PatternOf(ip))
                        || (run[n].Create? && run[n].t == t.value)
                        || (run[n].Replace? && run[n].t == t.value && run[n].isV6 == ip.Ip6?)) ==>
              r.value.dpo == s.forwarding(r.value.path, if ip.Ip6? then UnicastIp6 else UnicastIp4)
  {
    hide LegalRun, After, PatternOf;
    ReachableInv(f, run);
    var s := After(Fresh(f), run);
    var t := TableFor(s, i, ip.Ip6?);
    if t.Some? && n == -1 {
      StaysCurrentIn(Fresh(f), run, t.value, PatternOf(ip), ip.Ip6?);
    } else if t.Some? && Refreshes(run[n], t.value, PatternOf(ip), ip.Ip6?) {
      RefreshedIsCurrentIn(Fresh(f), run, n, t.value, PatternOf(ip), ip.Ip6?);
    }
  }

  /** What was last given is what the last request that filled the table says, whatever other
      tables, interfaces and the FIB do since. */
  lemma {:induction false} LastFillCounts(
    s: Acl, given: map<u32, seq<Rule>>, fill: Event, rest: seq<Event>, t: u32)
    requires Legal(s, fill) && (fill.Create? || fill.Replace?) && fill.t == t
    requires fill.Replace? ==> fill.rules == [] || s.tables[t].isV6 == fill.isV6
    requires LegalRun(Apply(s, fill), rest)
    requires forall k :: 0 <= k < |rest| ==> !Rewrites(rest[k], t)
    ensures LegalRun(s, [fill] + rest)
    ensures var now := Given(s, given, [fill] + rest);
            t in now && now[t] == fill.rules[..Accepted(fill.isV6, fill.rules)]
  {
    assert ([fill] + rest)[1..] == rest;
    GivenSurvives(Apply(s, fill), Noted(s, given, fill), rest, t);
  }

  lemma {:induction false} GivenSurvives(s: Acl, given: map<u32, seq<Rule>>, run: seq<Event>, t: u32)
    requires LegalRun(s, run) && t in given
    requires forall k :: 0 <= k < |run| ==> !Rewrites(run[k], t)
    ensures t in Given(s, given, run) && Given(s, given, run)[t] == given[t]
    decreases run
  {
    if run != [] {
      hide Apply;
      assert !Rewrites(run[0], t);
      GivenSurvives(Apply(s, run[0]), Noted(s, given, run[0]), run[1..], t);
    }
  }

  /** A run may be extended by one more event. */
  lemma {:induction false} RunThen(s: Acl, run: seq<Event>, e: Event)
    requires LegalRun(s, run) && Legal(After(s, run), e)
    ensures LegalRun(s, run + [e]) && After(s, run + [e]) == Apply(After(s, run), e)
    decreases run
  {
    hide Apply, Legal;
    if run == [] {
      assert run + [e] == [e] && [e][1..] == [];
    } else {
      RunThen(Apply(s, run[0]), run[1..], e);
      assert (run + [e])[1..] == run[1..] + [e];
    }
  }

  // ----- Which table is attached, and which tables there are -----

  /** Does this event give interface `i` a table of this family? */
  predicate AttachesOf(s: Acl, e: Event, i: nat, isV6: bool)
    requires Legal(s, e)
  {
    e.Attach? && e.i == i && s.tables[e.t].isV6 == isV6
  }

  /** Throughout the run the table is not detached and no table of the family is attached. */
  ghost predicate LeftAlone(s: Acl, run: seq<Event>, i: nat, t: u32, isV6: bool)
    requires LegalRun(s, run)
    decreases run
  {
    run == [] || (&& run[0] != Detach(i, t) && !AttachesOf(s, run[0], i, isV6)
                  && LeftAlone(Apply(s, run[0]), run[1..], i, t, isV6))
  }

  /** Some event of the run attaches the table to the interface, and it is left alone since. */
  ghost predicate StaysAttached(s: Acl, run: seq<Event>, i: nat, t: u32, isV6: bool)
    requires LegalRun(s, run)
    decreases run
  {
    && run != []
    && var s' := Apply(s, run[0]);
       || (run[0] == Attach(i, t) && s.tables[t].isV6 == isV6 && LeftAlone(s', run[1..], i, t, isV6))
       || StaysAttached(s', run[1..], i, t, isV6)
  }

  /** One event and the slot of one interface and family. */
  lemma SlotStep(s: Acl, e: Event, i: nat, isV6: bool)
    requires Inv(s) && Legal(s, e)
    ensures var before, after := TableFor(s, i, isV6), TableFor(Apply(s, e), i, isV6);
            after == if AttachesOf(s, e, i, isV6) then Some(e.t)
                     else if e.Detach? && e.i == i && before == Some(e.t) then None
                     else before
  {
    hide Bindings, Refilled;
  }

  lemma {:induction false} SlotAfter(s: Acl, run: seq<Event>, i: nat, t: u32, isV6: bool)
    requires Inv(s) && LegalRun(s, run)
    ensures TableFor(After(s, run), i, isV6) == Some(t) <==>
              || (TableFor(s, i, isV6) == Some(t) && LeftAlone(s, run, i, t, isV6))
              || StaysAttached(s, run, i, t, isV6)
    decreases run
  {
    if run != [] {
      StepKeepsInv(s, run[0]);
      SlotStep(s, run[0], i, isV6);
      hide Apply, Legal, Inv, TableFor;
      SlotAfter(Apply(s, run[0]), run[1..], i, t, isV6);
    }
  }

  /** In every state any run reaches, the table of an interface and family is the one attached
      last that was not detached since, if there is one. */
  lemma SlotIsLastAttach(f: (Path, Payload) -> Dpo, run: seq<Event>, i: nat, t: u32, isV6: bool)
    requires LegalRun(Fresh(f), run)
    ensures TableFor(After(Fresh(f), run), i, isV6) == Some(t)
       <==> StaysAttached(Fresh(f), run, i, t, isV6)
  {
    SlotAfter(Fresh(f), run, i, t, isV6);
  }

  /** Which tables there are: creating adds one, empty of other tables' rules and of its family;
      deleting takes it away unless some interface has it; nothing else changes the tables or
      the family of one. */
  lemma TablesStep(s: Acl, e: Event, t: u32)
    requires Legal(s, e)
    ensures var s' := Apply(s, e);
            && (t in s'.tables <==>
                  || (e.Create? && e.t == t)
                  || (t in s.tables && !(&& e == Delete(t)
                                         && (forall i :: i in s.v4 ==> s.v4[i] != t)
                                         && (forall i :: i in s.v6 ==> s.v6[i] != t))))
            && (t in s'.tables ==>
                  s'.tables[t].isV6 == if e.Create? && e.t == t then e.isV6 else t in s.tables && s.tables[t].isV6)
            && (t in s'.tables && t in s.tables && !Rewrites(e, t) && !e.BackWalk? ==> s'.tables[t] == s.tables[t])
  {
    hide Bindings;
  }
}
