/**
 The API handlers of the tunnel-termination ACL over the redirect store, the two slot
 vectors indexed by interface, the family flags indexed by table, and the enable counts
 of the bypass feature.  Each handler refines one event of AclMachine.
 */
module ControlPlane {
  import opened Basics
  import opened Redirects
  import opened AclMachine
  import opened Attachment

  // ----- Slot vectors -----

  ghost function SlotsOf(v: seq<u32>): map<nat, u32> {
    map i: nat | i < |v| && v[i] != NONE :: v[i]
  }

  lemma GrowingKeepsSlots(v: seq<u32>, i: nat)
    ensures SlotsOf(Grown(v, i, NONE)) == SlotsOf(v)
  {
  }

  lemma WritingSlot(v: seq<u32>, i: nat, t: u32)
    requires i < |v|
    ensures SlotsOf(v[i := t]) == if t == NONE then SlotsOf(v) - {i} else SlotsOf(v)[i := t]
  {
  }

  ghost function EnabledOf(bypass: map<nat, int>): set<nat> { set i | i in bypass && bypass[i] > 0 }

  /** The node may index both vectors with an enabled interface. */
  ghost predicate Bypassed(bypass: map<nat, int>, v4: seq<u32>, v6: seq<u32>) {
    && (forall i: nat :: Count(bypass, i) == if SetAt(v4, i) || SetAt(v6, i) then 1 else 0)
    && (forall i: nat :: Count(bypass, i) > 0 ==> i < |v4| && i < |v6|)
  }

  lemma EnabledWhereSet(bypass: map<nat, int>, v4: seq<u32>, v6: seq<u32>)
    requires Bypassed(bypass, v4, v6)
    ensures EnabledOf(bypass) == SlotsOf(v4).Keys + SlotsOf(v6).Keys
  {
    forall i: nat
      ensures i in EnabledOf(bypass) <==> i in SlotsOf(v4).Keys + SlotsOf(v6).Keys
    {
      assert i in EnabledOf(bypass) <==> Count(bypass, i) > 0;
    }
  }

  /** Between handlers, the slots and counts are as the write-by-write model demands. */
  lemma IdleConfig(tables: Tables, s: Config)
    requires s.phase == Idle
    requires SlotsLive(s.v4, tables, s.isV6, false) && SlotsLive(s.v6, tables, s.isV6, true)
    ensures Bypassed(s.bypass, s.v4, s.v6) <==> Attachment.Inv(s)
  {
    forall i: nat
      ensures Wanted(s, i) > 0 <==> SetAt(s.v4, i) || SetAt(s.v6, i)
    {
    }
  }

  lemma InvIsBypassed(s: Config)
    requires Attachment.Inv(s) && s.phase == Idle
    ensures Bypassed(s.bypass, s.v4, s.v6)
  {
    forall i: nat
      ensures Wanted(s, i) > 0 <==> SetAt(s.v4, i) || SetAt(s.v6, i)
    {
    }
  }

  /** Every set slot names a live table of this family. */
  ghost predicate SlotsLive(v: seq<u32>, tables: Tables, isV6: seq<bool>, family: bool) {
    forall i: nat :: SetAt(v, i) ==> v[i] in tables && v[i] < |isV6| && isV6[v[i]] == family
  }

  function MaskOf(isV6: bool): (mask: seq<bool>)
    ensures |mask| == VECTOR_SIZE
  {
    seq(VECTOR_SIZE, i => i < if isV6 then 16 else 4)
  }

  ghost predicate TablesAgree(tables: Tables, isV6: seq<bool>) {
    forall t :: t in tables ==> t != NONE && t < |isV6| && tables[t].mask == MaskOf(isV6[t])
  }

  ghost predicate PayloadsAgree(pool: Pool, isV6: seq<bool>) {
    forall j :: Live(pool, j) ==>
      pool[j].value.table < |isV6| && pool[j].value.payload == PayloadOf(isV6[pool[j].value.table])
  }

  lemma PatternsAreMasked(ip: Ip)
    ensures PatternOf(ip) == Masked(MaskOf(ip.Ip6?), PatternOf(ip))
  {
    var p, q := PatternOf(ip), Masked(MaskOf(ip.Ip6?), PatternOf(ip));
    forall k | 0 <= k < VECTOR_SIZE
      ensures p[k] == q[k]
    {
    }
  }

  ghost function View(rules: map<u32, map<seq<byte>, Target>>, isV6: seq<bool>): (r: map<u32, AclTable>)
    ensures r.Keys == rules.Keys
    ensures forall t :: t in r ==> r[t].isV6 == (t < |isV6| && isV6[t])
  {
    map t | t in rules :: AclTable(t < |isV6| && isV6[t], rules[t])
  }

  /** A mask of leading 0xff bytes, filled byte by byte. */
  method BuildMask(isV6: bool) returns (mask: seq<bool>)
    ensures mask == MaskOf(isV6)
  {
    mask := seq(VECTOR_SIZE, _ => false);
    var n := if isV6 then 16 else 4;
    var i := 0;
    while i < n
      invariant i <= n && |mask| == VECTOR_SIZE
      invariant forall k :: 0 <= k < VECTOR_SIZE ==> mask[k] == (k < i)
    {
      mask := mask[i := true];
      i := i + 1;
    }
  }

  /** The match vector of an address: its bytes, then zeros. */
  method BuildPattern(ip: Ip) returns (m: seq<byte>)
    ensures m == PatternOf(ip)
  {
    m := seq(VECTOR_SIZE, _ => 0);
    var n := if ip.Ip6? then 16 else 4;
    var i := 0;
    while i < n
      invariant i <= n && |m| == VECTOR_SIZE
      invariant forall k :: 0 <= k < VECTOR_SIZE ==> m[k] == if k < i then PatternOf(ip)[k] else 0
    {
      m := m[i := match ip case Ip4(a) => a[i] case Ip6(a) => a[i]];
      i := i + 1;
    }
  }

  /** Is the table named by some slot of the vector? */
  method Names(v: seq<u32>, t: u32) returns (b: bool)
    requires t != NONE
    ensures b <==> t in SlotsOf(v).Values
  {
    var i := 0;
    while i < |v|
      invariant i <= |v|
      invariant forall k :: 0 <= k < i ==> v[k] != t
    {
      if v[i] == t {
        assert i in SlotsOf(v);
        return true;
      }
      i := i + 1;
    }
    return false;
  }

  function WithTable(s: Acl, t: u32, table: AclTable): Acl { s.(tables := s.tables[t := table]) }

  /** One more good rule binds one more match. */
  lemma BindingsOfMore(f: (Path, Payload) -> Dpo, v6: bool, rules: seq<Rule>, i: nat)
    requires i < |rules| && forall k :: 0 <= k <= i ==> Accepts(v6, rules[k])
    ensures Bindings(f, v6, rules[..i + 1])
         == Bindings(f, v6, rules[..i])[PatternOf(rules[i].dst) := TargetOf(f, v6, rules[i])]
  {
    hide PatternOf, TargetOf;
    assert rules[..i + 1][..i] == rules[..i];
  }

  /** The status of a run of rules is that of the first bad one. */
  lemma StatusOfFirst(v6: bool, rules: seq<Rule>, i: nat)
    requires i < |rules| && i <= Accepted(v6, rules)
    ensures i == Accepted(v6, rules) <==> !Accepts(v6, rules[i])
    ensures RulesStatus(v6, [rules[i]]) == Ok <==> Accepts(v6, rules[i])
    ensures i == Accepted(v6, rules) ==> RulesStatus(v6, rules) == RulesStatus(v6, [rules[i]])
  {
    assert [rules[i]][0] == rules[i] && [rules[i]][1..] == [];
  }

  lemma AllAccepted(v6: bool, rules: seq<Rule>)
    ensures Accepted(v6, rules) == |rules| ==> RulesStatus(v6, rules) == Ok
  {
  }

  /** How adding the rules ends: with the error of the first bad rule, if there is one. */
  function RulesStatus(v6: bool, rules: seq<Rule>): Status {
    var n := Accepted(v6, rules);
    if n == |rules| then Ok
    else match rules[n].path
      case Bad(code) => Failed(code)
      case Good(_) => InvalidValue3
  }

  /** The status of a request is Ok when every rule has a good path and an address of the family;
      else it is the decoding error of the first rule that does not, or says that the address
      is of the wrong family. */
  lemma StatusIs(v6: bool, rules: seq<Rule>, n: nat)
    requires n <= |rules| && forall k :: 0 <= k < n ==> rules[k].path.Good? && rules[k].dst.Ip6? == v6
    ensures n == |rules| ==> RulesStatus(v6, rules) == Ok
    ensures n < |rules| && rules[n].path.Bad? ==> RulesStatus(v6, rules) == Failed(rules[n].path.code)
    ensures n < |rules| && rules[n].path.Good? && rules[n].dst.Ip6? != v6 ==> RulesStatus(v6, rules) == InvalidValue3
  {
    var a := Accepted(v6, rules);
    if a < |rules| {
      assert !Accepts(v6, rules[a]);
    }
    assert n < a ==> Accepts(v6, rules[n]);
  }

  /** No rule of a request gets as far as the store: the family is wrong or the first rule bad. */
  predicate NothingToAdd(isV6: seq<bool>, t: u32, v6: bool, rules: seq<Rule>)
    requires rules != [] ==> t < |isV6|
  {
    rules == [] || isV6[t] != v6 || Accepted(v6, rules) == 0
  }

  /** A table index that is not live, freed or never used, has no entries. */
  lemma NoEntriesOf(pool: Pool, index: Index, tables: Tables, children: Children, t: u32)
    requires Consistent(pool, index, tables, children) && t !in tables
    ensures forall j :: Live(pool, j) ==> pool[j].value.table in tables && pool[j].value.table != t
  {
    forall j | Live(pool, j)
      ensures pool[j].value.table in tables
    {
      LiveEntry(pool, index, tables, children, j);
    }
  }

  lemma FlagsCover(tables: Tables, isV6: seq<bool>)
    requires TablesAgree(tables, isV6)
    ensures forall t :: t in tables ==> t < |isV6| && t != NONE
  {
  }

  lemma SameMasksAgree(tables: Tables, tables': Tables, isV6: seq<bool>, v4: seq<u32>, v6: seq<u32>)
    requires SameMasks(tables, tables') && TablesAgree(tables, isV6)
    requires SlotsLive(v4, tables, isV6, false) && SlotsLive(v6, tables, isV6, true)
    ensures TablesAgree(tables', isV6)
    ensures SlotsLive(v4, tables', isV6, false) && SlotsLive(v6, tables', isV6, true)
  {
  }

  lemma NewTableAgrees(pool: Pool, tables: Tables, isV6: seq<bool>, v4: seq<u32>, v6: seq<u32>, t: u32, family: bool)
    requires TablesAgree(tables, isV6) && PayloadsAgree(pool, isV6)
    requires SlotsLive(v4, tables, isV6, false) && SlotsLive(v6, tables, isV6, true)
    requires t !in tables && t != NONE && (forall j :: Live(pool, j) ==> pool[j].value.table != t)
    ensures var tables', isV6' := tables[t := Table(MaskOf(family), map[])], Grown(isV6, t, false)[t := family];
            && TablesAgree(tables', isV6') && PayloadsAgree(pool, isV6')
            && SlotsLive(v4, tables', isV6', false) && SlotsLive(v6, tables', isV6', true)
  {
  }

  lemma Unnamed(v: seq<u32>, t: u32)
    requires t !in SlotsOf(v).Values
    ensures forall i: nat :: SetAt(v, i) ==> v[i] != t
  {
    forall i: nat | SetAt(v, i)
      ensures v[i] != t
    {
      assert i in SlotsOf(v) && SlotsOf(v)[i] in SlotsOf(v).Values;
    }
  }

  lemma DeletedAgrees(
    pool: Pool, tables: Tables, cleared: Tables, isV6: seq<bool>, v4: seq<u32>, v6: seq<u32>, t: u32)
    requires SameMasks(tables, cleared) && TablesAgree(tables, isV6) && PayloadsAgree(pool, isV6)
    requires SlotsLive(v4, tables, isV6, false) && SlotsLive(v6, tables, isV6, true)
    requires t < |isV6| && t != NONE && t !in SlotsOf(v4).Values && t !in SlotsOf(v6).Values
    ensures var tables', isV6' := cleared - {t}, isV6[t := false];
            && TablesAgree(tables', isV6') && PayloadsAgree(Without(pool, t), isV6')
            && SlotsLive(v4, tables', isV6', false) && SlotsLive(v6, tables', isV6', true)
  {
    Unnamed(v4, t);
    Unnamed(v6, t);
    forall j | Live(Without(pool, t), j)
      ensures Live(pool, j) && Without(pool, t)[j] == pool[j] && pool[j].value.table != t
    {
    }
  }

  lemma ViewWithout(rules: map<u32, map<seq<byte>, Target>>, isV6: seq<bool>, t: u32)
    requires t < |isV6|
    ensures View((if t in rules then rules[t := map[]] else rules) - {t}, isV6[t := false]) == View(rules, isV6) - {t}
  {
  }

  /** The slots and enabled interfaces the user sees. */
  ghost predicate Shows(s: Config, acl: Acl) {
    SlotsOf(s.v4) == acl.v4 && SlotsOf(s.v6) == acl.v6 && EnabledOf(s.bypass) == acl.enabled
  }

  lemma AttachedAgrees(tables: Tables, s: Config, i: nat, t: u32, acl: Acl)
    requires s.phase == Idle && Bypassed(s.bypass, s.v4, s.v6) && Shows(s, acl)
    requires SlotsLive(s.v4, tables, s.isV6, false) && SlotsLive(s.v6, tables, s.isV6, true)
    requires t != NONE && t < |s.isV6|
    ensures var s' := Last(AttachRun(s, i, t));
            && Bypassed(s'.bypass, s'.v4, s'.v6)
            && (SlotsLive(s'.v4, tables, s.isV6, false) && SlotsLive(s'.v6, tables, s.isV6, true) <==> t in tables)
            && Shows(s', Attached(acl, i, t, s.isV6[t]))
  {
    hide AttachRun, Attachment.Inv, SlotsOf, EnabledOf, Bypassed;
    IdleConfig(tables, s);
    AttachEnds(s, i, t);
    var s' := Last(AttachRun(s, i, t));
    GrowingKeepsSlots(s.v4, i);
    GrowingKeepsSlots(s.v6, i);
    WritingSlot(Grown(s.v4, i, NONE), i, t);
    WritingSlot(Grown(s.v6, i, NONE), i, t);
    EnabledWhereSet(s.bypass, s.v4, s.v6);
    assert s'.isV6 == s.isV6 by { KeepsFlags(s, i, t); }
    InvIsBypassed(s');
    EnabledWhereSet(s'.bypass, s'.v4, s'.v6);
    assert SetAt(if s.isV6[t] then s'.v6 else s'.v4, i);
  }

  lemma KeepsFlags(s: Config, i: nat, t: u32)
    requires t < |s.isV6|
    ensures Last(AttachRun(s, i, t)).isV6 == s.isV6
    ensures Last(DetachRun(s, i, t)).isV6 == s.isV6
  {
  }

  predicate IsAttached(acl: Acl, i: nat, t: u32) {
    (i in acl.v4 && acl.v4[i] == t) || (i in acl.v6 && acl.v6[i] == t)
  }

  /** The slot that names the table goes; every other stays. */
  lemma DetachedSlots(s: Config, i: nat, t: u32)
    requires Attachment.Inv(s) && s.phase == Idle && t != NONE && t < |s.isV6|
    ensures var s' := Last(DetachRun(s, i, t));
            var in4, in6 := SetAt(s.v4, i) && s.v4[i] == t, SetAt(s.v6, i) && s.v6[i] == t;
            && SlotsOf(s'.v4) == (if in4 then SlotsOf(s.v4) - {i} else SlotsOf(s.v4))
            && SlotsOf(s'.v6) == (if in6 then SlotsOf(s.v6) - {i} else SlotsOf(s.v6))
            && !(in4 && in6)
            && (|DetachRun(s, i, t)| == 5 <==> in4 || in6)
            && Bypassed(s'.bypass, s'.v4, s'.v6) && s'.isV6 == s.isV6
  {
    hide DetachRun, Attachment.Inv, SlotsOf, Bypassed;
    DetachEnds(s, i, t);
    GrowingKeepsSlots(s.v4, i);
    GrowingKeepsSlots(s.v6, i);
    WritingSlot(Grown(s.v4, i, NONE), i, NONE);
    WritingSlot(Grown(s.v6, i, NONE), i, NONE);
    KeepsFlags(s, i, t);
    InvIsBypassed(Last(DetachRun(s, i, t)));
  }

  /** Clearing slots keeps the others live. */
  lemma FewerSlotsLive(v: seq<u32>, v': seq<u32>, tables: Tables, isV6: seq<bool>, family: bool)
    requires SlotsLive(v, tables, isV6, family)
    requires SlotsOf(v').Keys <= SlotsOf(v).Keys && forall i :: i in SlotsOf(v') ==> SlotsOf(v')[i] == SlotsOf(v)[i]
    ensures SlotsLive(v', tables, isV6, family)
  {
    hide SlotsOf;
    forall i: nat | SetAt(v', i)
      ensures v'[i] in tables && v'[i] < |isV6| && isV6[v'[i]] == family
    {
      SlotIsSet(v, i);
      SlotIsSet(v', i);
    }
  }

  lemma DetachedAgrees(tables: Tables, s: Config, i: nat, t: u32, acl: Acl)
    requires s.phase == Idle && Bypassed(s.bypass, s.v4, s.v6) && Shows(s, acl)
    requires SlotsLive(s.v4, tables, s.isV6, false) && SlotsLive(s.v6, tables, s.isV6, true)
    requires t != NONE && t < |s.isV6|
    ensures var s' := Last(DetachRun(s, i, t));
            && Bypassed(s'.bypass, s'.v4, s'.v6)
            && SlotsLive(s'.v4, tables, s.isV6, false) && SlotsLive(s'.v6, tables, s.isV6, true)
            && Shows(s', Apply(acl, AclMachine.Event.Detach(i, t)))
            && (|DetachRun(s, i, t)| == 5 <==> IsAttached(acl, i, t))
  {
    hide DetachRun, Attachment.Inv, SlotsOf, EnabledOf, Bypassed, SlotsLive;
    IdleConfig(tables, s);
    DetachedSlots(s, i, t);
    var s' := Last(DetachRun(s, i, t));
    SlotIsSet(s.v4, i);
    SlotIsSet(s.v6, i);
    FewerSlotsLive(s.v4, s'.v4, tables, s.isV6, false);
    FewerSlotsLive(s.v6, s'.v6, tables, s.isV6, true);
    EnabledWhereSet(s.bypass, s.v4, s.v6);
    EnabledWhereSet(s'.bypass, s'.v4, s'.v6);
  }

  /** Deleting a table no slot names takes it away and touches nothing else. */
  lemma DeleteIs(acl: Acl, t: u32)
    requires t != NONE
    ensures Apply(acl, AclMachine.Event.Delete(t))
         == if InUse(acl, t) then acl else acl.(tables := acl.tables - {t})
  {
  }

  /** Detaching touches neither tables nor the FIB. */
  lemma DetachKeepsTables(acl: Acl, i: nat, t: u32)
    requires t != NONE
    ensures var acl' := Apply(acl, AclMachine.Event.Detach(i, t));
            acl'.tables == acl.tables && acl'.forwarding == acl.forwarding
  {
  }

  lemma SlotIsSet(v: seq<u32>, i: nat)
    ensures i in SlotsOf(v) <==> SetAt(v, i)
    ensures i in SlotsOf(v) ==> SlotsOf(v)[i] == v[i]
  {
  }

  /** The match of a rule suits the mask of a table of its family. */
  lemma PatternSuits(tables: Tables, isV6: seq<bool>, t: u32, ip: Ip)
    requires TablesAgree(tables, isV6) && t < |isV6| && isV6[t] == ip.Ip6?
    ensures t in tables ==> |tables[t].mask| == VECTOR_SIZE && PatternOf(ip) == Masked(tables[t].mask, PatternOf(ip))
  {
    PatternsAreMasked(ip);
  }

  lemma AddedAgrees(pool: Pool, pool': Pool, isV6: seq<bool>, t: u32)
    requires PayloadsAgree(pool, isV6) && t < |isV6|
    requires forall j :: Live(pool', j) ==>
               || (Live(pool, j) && pool'[j] == pool[j])
               || (pool'[j].value.table == t && pool'[j].value.payload == PayloadOf(isV6[t]))
    ensures PayloadsAgree(pool', isV6)
  {
  }

  lemma RestackedAgrees(pool: Pool, isV6: seq<bool>, j: nat, dpo: Dpo)
    requires PayloadsAgree(pool, isV6) && Live(pool, j)
    ensures PayloadsAgree(pool[j := Some(pool[j].value.(dpo := dpo))], isV6)
    ensures pool[j].value.table < |isV6| && pool[j].value.payload == PayloadOf(isV6[pool[j].value.table])
  {
  }

  /** Rewriting one target of one table is the machine's back-walk. */
  lemma BackWalkView(acl: Acl, rules: map<u32, map<seq<byte>, Target>>, isV6: seq<bool>, t: u32, m: seq<byte>)
    requires acl.tables == View(rules, isV6) && t in rules && m in rules[t] && t < |isV6|
    ensures Legal(acl, BackWalk(t, m))
    ensures var path := rules[t][m].path;
            var target := Target(path, acl.forwarding(path, PayloadOf(isV6[t])));
            Apply(acl, BackWalk(t, m)) == acl.(tables := View(rules[t := rules[t][m := target]], isV6))
  {
    ViewAt(rules, isV6, t);
    var path := rules[t][m].path;
    var target := Target(path, acl.forwarding(path, PayloadOf(isV6[t])));
    ViewOfUpdate(rules, isV6, t, rules[t][m := target]);
  }

  lemma ClearedAgrees(pool: Pool, isV6: seq<bool>, t: u32)
    requires PayloadsAgree(pool, isV6)
    ensures PayloadsAgree(Without(pool, t), isV6)
  {
    forall j | Live(Without(pool, t), j)
      ensures Live(pool, j) && Without(pool, t)[j] == pool[j]
    {
    }
  }

  lemma ViewAt(rules: map<u32, map<seq<byte>, Target>>, isV6: seq<bool>, t: u32)
    requires t in rules && t < |isV6|
    ensures View(rules, isV6)[t] == AclTable(isV6[t], rules[t])
  {
  }

  lemma ViewOfUpdate(rules: map<u32, map<seq<byte>, Target>>, isV6: seq<bool>, t: u32, r: map<seq<byte>, Target>)
    requires t in rules && t < |isV6|
    ensures View(rules[t := r], isV6) == View(rules, isV6)[t := AclTable(isV6[t], r)]
  {
  }

  lemma ViewWithNew(rules: map<u32, map<seq<byte>, Target>>, isV6: seq<bool>, t: u32, v6: bool)
    requires forall u :: u in rules ==> u < |isV6| && u != t
    ensures View(rules[t := map[]], Grown(isV6, t, false)[t := v6]) == View(rules, isV6)[t := AclTable(v6, map[])]
  {
  }

  // ----- Requests -----

  /** An API message with what its argument checks find, or a message of the FIB. */
  datatype Request =
    | AddReplaceMsg(v6: bool, rules: seq<Rule>, index: u32, lengthOk: bool, createRv: int)
    | DelMsg(t: u32)
    | InterfaceMsg(add: bool, i: nat, t: u32, known: bool)
    | FibMsg(f: (Path, Payload) -> Dpo)
    | BackWalkMsg(j: nat)

  /** The event a request may turn into. */
  ghost predicate Causes(q: Request, e: Event) {
    match q
    case AddReplaceMsg(v6, rules, index, _, _) =>
      if index == NONE then e.Create? && e == Create(e.t, v6, rules) else e == Replace(index, v6, rules)
    case DelMsg(t) => e == AclMachine.Event.Delete(t)
    case InterfaceMsg(add, i, t, _) =>
      e == if add then AclMachine.Event.Attach(i, t) else AclMachine.Event.Detach(i, t)
    case FibMsg(f) => e == FibChange(f)
    case BackWalkMsg(_) => e.BackWalk?
  }

  /** The events of a run of requests, some of which cause none. */
  function Events(steps: seq<Option<Event>>): seq<Event> {
    if steps == [] then []
    else
      var n := |steps| - 1;
      Events(steps[..n]) + match steps[n] case None => [] case Some(e) => [e]
  }

  /** Requests that an argument check stops, that fail to create a table, or that have nothing
      to replace. */
  ghost predicate Silent(s: Acl, q: Request) {
    match q
    case AddReplaceMsg(_, _, index, lengthOk, createRv) =>
      !lengthOk || if index == NONE then createRv != 0 else index !in s.tables
    case DelMsg(t) => t == NONE
    case InterfaceMsg(_, _, t, known) => t == NONE || !known
    case _ => false
  }

  /** The machine's answer to a request: one event, or none. */
  ghost predicate Answers(s: Acl, q: Request, step: Option<Event>) {
    match step
    case None => Silent(s, q)
    case Some(e) => !Silent(s, q) && Causes(q, e) && Legal(s, e)
  }

  /** Each request is answered in the state the earlier answers lead to. */
  ghost predicate Answered(s: Acl, qs: seq<Request>, steps: seq<Option<Event>>)
    requires |qs| == |steps|
  {
    qs == [] ||
    var n := |qs| - 1;
    && Answered(s, qs[..n], steps[..n])
    && LegalRun(s, Events(steps[..n]))
    && Answers(After(s, Events(steps[..n])), qs[n], steps[n])
  }

  lemma NoEvents(s: Acl)
    ensures Events([]) == [] && LegalRun(s, Events([])) && After(s, Events([])) == s && Answered(s, [], [])
  {
  }

  lemma OneMore(s: Acl, qs: seq<Request>, steps: seq<Option<Event>>, q: Request, step: Option<Event>)
    requires |qs| == |steps| && Answered(s, qs, steps)
    requires LegalRun(s, Events(steps)) && Answers(After(s, Events(steps)), q, step)
    ensures Answered(s, qs + [q], steps + [step])
    ensures LegalRun(s, Events(steps + [step]))
    ensures After(s, Events(steps + [step]))
         == match step case None => After(s, Events(steps)) case Some(e) => Apply(After(s, Events(steps)), e)
  {
    hide Apply, Legal, LegalRun, After, Causes, Silent;
    assert (steps + [step])[..|steps|] == steps && (qs + [q])[..|qs|] == qs;
    match step
    case None =>
      assert Events(steps + [step]) == Events(steps);
    case Some(e) =>
      RunThen(s, Events(steps), e);
      assert Events(steps + [step]) == Events(steps) + [e];
  }

  class TuntermAcl {
    const store: RedirectStore
    var slotsV4: seq<u32>
    var slotsV6: seq<u32>
    var isV6: seq<bool>
    var bypass: map<nat, int>

    ghost predicate Valid()
      reads this, store
    {
      && store.Valid()
      && TablesAgree(store.tables, isV6)
      && PayloadsAgree(store.pool, isV6)
      && SlotsLive(slotsV4, store.tables, isV6, false)
      && SlotsLive(slotsV6, store.tables, isV6, true)
      && Bypassed(bypass, slotsV4, slotsV6)
    }

    ghost function Abs(): Acl
      requires Valid()
      reads this, store
    {
      Acl(View(store.Rules(), isV6), SlotsOf(slotsV4), SlotsOf(slotsV6),
          EnabledOf(bypass), store.forwarding)
    }

    constructor (forwarding: (Path, Payload) -> Dpo)
      ensures fresh(store) && Valid() && Abs() == Fresh(forwarding)
    {
      store := new RedirectStore(forwarding);
      slotsV4, slotsV6, isV6, bypass := [], [], [], map[];
    }

    /** Creates an empty table, possibly under a freed index, and records its family. */
    method CreateTable(v6: bool) returns (t: u32)
      requires Valid() && |store.tables| < NONE
      modifies this, store
      ensures Valid()
      ensures t !in old(store.tables) && t in store.tables && t != NONE
      ensures t < |isV6| && isV6[t] == v6
      ensures Abs() == WithTable(old(Abs()), t, AclTable(v6, map[]))
    {
      hide Consistent, RulesOf, Bypassed, TablesAgree, PayloadsAgree, SlotsLive, View, MaskOf, SlotsOf, EnabledOf;
      FlagsCover(store.tables, isV6);
      var mask := BuildMask(v6);
      t := store.AddTable(mask);
      NoEntriesOf(store.pool, store.index, old(store.tables), store.children, t);
      NewTableAgrees(store.pool, old(store.tables), isV6, slotsV4, slotsV6, t, v6);
      isV6 := Grown(isV6, t, false);
      isV6 := isV6[t := v6];
      ViewWithNew(old(store.Rules()), old(isV6), t, v6);
    }

    /** Adds one rule to a table of its family.  If the table is not live, a good rule is left
        behind in the store without a session. */
    method AddRule(v6: bool, rule: Rule, t: u32) returns (rv: Status)
      requires Valid() && t < |isV6| && isV6[t] == v6
      modifies store
      ensures Valid() <==> t in old(store.tables) || !Accepts(v6, rule)
      ensures t in store.tables <==> t in old(store.tables)
      ensures store.forwarding == old(store.forwarding)
      ensures rv == if Accepts(v6, rule) && t !in old(store.tables) then NoSuchTable else RulesStatus(v6, [rule])
      ensures Valid() && !Accepts(v6, rule) ==> store.Rules() == old(store.Rules())
      ensures Valid() && Accepts(v6, rule) ==>
                store.Rules() == old(store.Rules())[t := old(store.Rules())[t][
                  PatternOf(rule.dst) := TargetOf(store.forwarding, v6, rule)]]
    {
      hide Consistent, RulesOf, Bypassed, TablesAgree, PayloadsAgree, SlotsLive, PatternOf, Masked;
      if rule.path.Bad? {
        return Failed(rule.path.code);
      }
      if v6 != rule.dst.Ip6? {
        return InvalidValue3;
      }
      var pattern := BuildPattern(rule.dst);
      PatternSuits(store.tables, isV6, t, rule.dst);
      rv := store.Add(t, 0, if v6 then ProtoIp6 else ProtoIp4, pattern, rule.path.path);
      SameMasksAgree(old(store.tables), store.tables, isV6, slotsV4, slotsV6);
      if rv == Ok {
        AddedAgrees(old(store.pool), store.pool, isV6, t);
      }
    }

    /** Adds rules one by one to an empty table until one is bad, or the table not live. */
    method AddRules(v6: bool, rules: seq<Rule>, t: u32) returns (rv: Status)
      requires Valid() && (t in store.tables ==> store.Rules()[t] == map[])
      requires rules != [] ==> t < |isV6| && isV6[t] == v6
      modifies store
      ensures Valid() <==> t in old(store.tables) || Accepted(v6, rules) == 0
      ensures t in store.tables <==> t in old(store.tables)
      ensures store.forwarding == old(store.forwarding)
      ensures t in old(store.tables) ==>
                store.Rules() == old(store.Rules())[t := Bindings(store.forwarding, v6, rules[..Accepted(v6, rules)])]
      ensures Valid() && t !in old(store.tables) ==> store.Rules() == old(store.Rules())
      ensures rv == if t !in old(store.tables) && Accepted(v6, rules) > 0 then NoSuchTable else RulesStatus(v6, rules)
    {
      hide Consistent, RulesOf, Bypassed, TablesAgree, PayloadsAgree, SlotsLive, PatternOf, TargetOf, Bindings,
           RulesStatus;
      var i := 0;
      NoBindings(store.forwarding, v6);
      assert rules[..0] == [];
      assert t in store.tables ==> old(store.Rules())[t := map[]] == old(store.Rules());
      while i < |rules|
        invariant i <= |rules|
        invariant Valid() && (t in store.tables <==> t in old(store.tables))
        invariant store.forwarding == old(store.forwarding)
        invariant i <= Accepted(v6, rules)
        invariant t in store.tables ==>
                    store.Rules() == old(store.Rules())[t := Bindings(store.forwarding, v6, rules[..i])]
        invariant t !in store.tables ==> i == 0 && store.Rules() == old(store.Rules())
      {
        StatusOfFirst(v6, rules, i);
        if Accepts(v6, rules[i]) {
          BindingsOfMore(store.forwarding, v6, rules, i);
        }
        rv := AddRule(v6, rules[i], t);
        if rv != Ok {
          return rv;
        }
        i := i + 1;
      }
      rv := Ok;
      AllAccepted(v6, rules);
    }

    /** Empties a table, live or not. */
    method ClearTable(t: u32) returns (rv: Status)
      requires Valid()
      modifies store
      ensures Valid() && rv == Ok
      ensures store.forwarding == old(store.forwarding) && store.tables.Keys == old(store.tables).Keys
      ensures store.Rules() == if t in old(store.tables) then old(store.Rules())[t := map[]] else old(store.Rules())
    {
      hide Consistent, RulesOf, Bypassed, TablesAgree, PayloadsAgree, SlotsLive;
      rv := store.Clear(t);
      ClearedAgrees(old(store.pool), isV6, t);
      SameMasksAgree(old(store.tables), store.tables, isV6, slotsV4, slotsV6);
    }

    /** Clears a table and adds the rules up to the first bad one.  The table is not looked up:
        if it is not live, nothing happens until a good rule is added, and that breaks the
        store. */
    method Refill(v6: bool, rules: seq<Rule>, t: u32) returns (rv: Status)
      requires Valid() && (rules != [] ==> t < |isV6|)
      modifies store
      ensures Valid() <==> t in old(store.tables) || NothingToAdd(isV6, t, v6, rules)
      ensures t in old(store.tables) ==> Abs() == Apply(old(Abs()), Replace(t, v6, rules))
      ensures Valid() && t !in old(store.tables) ==> Abs() == old(Abs())
      ensures rv == if rules != [] && isV6[t] != v6 then InvalidValue2
                    else if t !in old(store.tables) && Accepted(v6, rules) > 0 then NoSuchTable
                    else RulesStatus(v6, rules)
    {
      hide Consistent, RulesOf, Bypassed, TablesAgree, PayloadsAgree, SlotsLive, View, Bindings, RulesStatus,
           SlotsOf, EnabledOf;
      FlagsCover(store.tables, isV6);
      if rules != [] && isV6[t] != v6 {
        ghost var acl := Abs();
        assert t in store.tables ==> acl.tables[t := acl.tables[t]] == acl.tables;
        return InvalidValue2;
      }
      rv := ClearTable(t);
      if rv != Ok {
        return rv;
      }
      rv := AddRules(v6, rules, t);
      if t in store.tables {
        assert store.Rules()
            == old(store.Rules())[t := Bindings(store.forwarding, v6, rules[..Accepted(v6, rules)])];
        ViewOfUpdate(old(store.Rules()), isV6, t,
                     Bindings(store.forwarding, v6, rules[..Accepted(v6, rules)]));
      }
    }

    /** Creates a table or replaces the rules of one that need not be live.  `lengthOk` says whether the
        message is as long as its count claims, `createRv` what creating a table returned. */
    method AddReplace(v6: bool, rules: seq<Rule>, index: u32, lengthOk: bool, createRv: int)
      returns (rv: Status, index': u32)
      requires Valid() && |store.tables| < NONE
      requires index != NONE && rules != [] ==> index < |isV6|
      modifies this, store
      ensures Valid() <==> !lengthOk || index == NONE || index in old(store.tables)
                           || NothingToAdd(old(isV6), index, v6, rules)
      ensures !lengthOk ==> rv == InvalidValue && index' == index && Abs() == old(Abs())
      ensures lengthOk && index == NONE && createRv != 0 ==>
                rv == Failed(createRv) && index' == index && Abs() == old(Abs())
      ensures lengthOk && index == NONE && createRv == 0 ==>
                && Legal(old(Abs()), Create(index', v6, rules))
                && Abs() == Apply(old(Abs()), Create(index', v6, rules))
                && rv == RulesStatus(v6, rules)
      ensures lengthOk && index != NONE && index !in old(store.tables) ==>
                && index' == index
                && (Valid() ==> Abs() == old(Abs()))
                && rv == if rules != [] && old(isV6)[index] != v6 then InvalidValue2
                         else if Accepted(v6, rules) > 0 then NoSuchTable
                         else RulesStatus(v6, rules)
      ensures lengthOk && index != NONE && index in old(store.tables) ==>
                && index' == index
                && Legal(old(Abs()), Replace(index, v6, rules))
                && Abs() == Apply(old(Abs()), Replace(index, v6, rules))
                && rv == if rules != [] && old(Abs()).tables[index].isV6 != v6 then InvalidValue2
                         else RulesStatus(v6, rules)
    {
      hide Consistent, RulesOf, Bypassed, TablesAgree, PayloadsAgree, SlotsLive, View, Refilled, RulesStatus,
           SlotsOf, EnabledOf;
      index' := index;
      if !lengthOk {
        return InvalidValue, index';
      }
      FlagsCover(store.tables, isV6);
      if index == NONE {
        if createRv != 0 {
          return Failed(createRv), index';
        }
        index' := CreateTable(v6);
      }
      rv := Refill(v6, rules, index');
    }

    /** Deletes a table no slot names.  Deleting an index that is not live changes nothing. */
    method Delete(t: u32) returns (rv: Status)
      requires Valid() && (t != NONE ==> t < |isV6|)
      modifies this, store
      ensures Valid()
      ensures t == NONE ==> rv == InvalidValue && Abs() == old(Abs())
      ensures t != NONE ==>
                && Abs() == Apply(old(Abs()), AclMachine.Event.Delete(t))
                && rv == if InUse(old(Abs()), t) then RsrcInUse else Ok
    {
      hide Consistent, RulesOf, Bypassed, TablesAgree, PayloadsAgree, SlotsLive, View, SlotsOf, EnabledOf, Apply,
           SameMasks, Without;
      if t == NONE {
        return InvalidValue;
      }
      DeleteIs(Abs(), t);
      var used := Names(slotsV4, t);
      if used {
        return RsrcInUse;
      }
      used := Names(slotsV6, t);
      if used {
        return RsrcInUse;
      }
      rv := store.Clear(t);
      if rv != Ok {
        return rv;
      }
      label Cleared:
      store.DeleteTable(t);
      isV6 := isV6[t := false];
      DeletedAgrees(old(store.pool), old(store.tables), old@Cleared(store.tables), old(isV6), slotsV4, slotsV6, t);
      ViewWithout(old(store.Rules()), old(isV6), t);
    }

    ghost function Snapshot(phase: Phase): Config
      reads this
    {
      Config(slotsV4, slotsV6, isV6, bypass, phase)
    }

    /** Attaches a table, live or not: first the slot, then the feature.  `run` records each
        write. */
    method Attach(i: nat, t: u32) returns (rv: Status, ghost run: seq<Config>)
      requires Valid() && t != NONE && t < |isV6|
      modifies this`slotsV4, this`slotsV6, this`bypass
      ensures rv == Ok && (Valid() <==> t in store.tables)
      ensures Valid() ==> Abs() == Apply(old(Abs()), AclMachine.Event.Attach(i, t))
      ensures Shows(Snapshot(Idle), Attached(old(Abs()), i, t, isV6[t]))
      ensures run == AttachRun(old(Snapshot(Idle)), i, t) && Last(run) == Snapshot(Idle)
    {
      hide Consistent, RulesOf, View, TablesAgree, PayloadsAgree, SlotsLive, Bypassed, SlotsOf, EnabledOf,
           Attachment.Inv;
      FlagsCover(store.tables, isV6);
      run := [Snapshot(Idle)];
      slotsV6 := Grown(slotsV6, i, NONE);
      run := run + [Snapshot(Grew6(true, i, t))];
      slotsV4 := Grown(slotsV4, i, NONE);
      run := run + [Snapshot(Grew4(true, i, t))];
      if isV6[t] {
        slotsV6 := slotsV6[i := t];
      } else {
        slotsV4 := slotsV4[i := t];
      }
      run := run + [Snapshot(Wrote(i, t))];
      if Count(bypass, i) <= 0 {
        bypass := Added(bypass, i, 1);
      }
      run := run + [Snapshot(Idle)];
      rv := Ok;
      AttachedAgrees(store.tables, old(Snapshot(Idle)), i, t, old(Abs()));
    }

    /** Detaches a table from an interface it is attached to: first the feature, if this was
        the last table, then the slot.  The index need not be live. */
    method Detach(i: nat, t: u32) returns (rv: Status, ghost run: seq<Config>)
      requires Valid() && t != NONE && t < |isV6|
      modifies this`slotsV4, this`slotsV6, this`bypass
      ensures Valid()
      ensures Abs() == Apply(old(Abs()), AclMachine.Event.Detach(i, t))
      ensures rv == if IsAttached(old(Abs()), i, t) then Ok else InvalidValue2
      ensures run == DetachRun(old(Snapshot(Idle)), i, t) && Last(run) == Snapshot(Idle)
    {
      hide Consistent, RulesOf, View, TablesAgree, PayloadsAgree, SlotsLive, Bypassed, SlotsOf, EnabledOf,
           Attachment.Inv, IsAttached, Apply;
      DetachKeepsTables(Abs(), i, t);
      run := [Snapshot(Idle)];
      slotsV6 := Grown(slotsV6, i, NONE);
      run := run + [Snapshot(Grew6(false, i, t))];
      slotsV4 := Grown(slotsV4, i, NONE);
      run := run + [Snapshot(Grew4(false, i, t))];
      var t4, t6 := slotsV4[i], slotsV6[i];
      DetachedAgrees(store.tables, old(Snapshot(Idle)), i, t, old(Abs()));
      if t != t4 && t != t6 {
        run := run + [Snapshot(Idle)];
        return InvalidValue2, run;
      }
      if t4 == NONE || t6 == NONE {
        bypass := Added(bypass, i, -1);
      }
      run := run + [Snapshot(Disabled(i, t))];
      if isV6[t] {
        slotsV6 := slotsV6[i := NONE];
      } else {
        slotsV4 := slotsV4[i := NONE];
      }
      run := run + [Snapshot(Idle)];
      rv := Ok;
    }

    /** Adds a table to an interface or removes it.  `known` says whether the interface exists. */
    method InterfaceAddDel(add: bool, i: nat, t: u32, known: bool) returns (rv: Status)
      requires Valid()
      requires t != NONE && known ==> t < |isV6|
      modifies this`slotsV4, this`slotsV6, this`bypass
      ensures Valid() <==> t == NONE || !known || !add || t in store.tables
      ensures t == NONE || !known ==>
                Abs() == old(Abs()) && rv == if t == NONE then InvalidValue else InvalidSwIfIndex
      ensures t != NONE && known && add ==>
                && rv == Ok && Shows(Snapshot(Idle), Attached(old(Abs()), i, t, isV6[t]))
                && (Valid() ==> Abs() == Apply(old(Abs()), AclMachine.Event.Attach(i, t)))
      ensures t != NONE && known && !add ==>
                && Abs() == Apply(old(Abs()), AclMachine.Event.Detach(i, t))
                && rv == if IsAttached(old(Abs()), i, t) then Ok else InvalidValue2
    {
      hide Consistent, RulesOf, View, TablesAgree, PayloadsAgree, SlotsLive, Bypassed, SlotsOf, EnabledOf, IsAttached;
      ghost var run;
      if t == NONE {
        return InvalidValue;
      }
      if !known {
        return InvalidSwIfIndex;
      }
      if add {
        rv, run := Attach(i, t);
      } else {
        rv, run := Detach(i, t);
      }
    }

    /** The FIB resolves paths differently from now on. */
    method ForwardingChanges(f: (Path, Payload) -> Dpo)
      requires Valid()
      modifies store`forwarding
      ensures Valid() && Abs() == Apply(old(Abs()), FibChange(f))
    {
      store.ForwardingChanges(f);
    }

    /** A back-walk reaches the pool entry of one rule. */
    method BackWalkNotify(j: nat)
      requires Valid() && Live(store.pool, j)
      modifies store
      ensures Valid()
      ensures var e := old(store.pool)[j].value;
              && Legal(old(Abs()), BackWalk(e.table, e.key.pattern))
              && Abs() == Apply(old(Abs()), BackWalk(e.table, e.key.pattern))
    {
      hide Consistent, RulesOf, View, TablesAgree, PayloadsAgree, SlotsLive, Bypassed, SlotsOf, EnabledOf, Apply, Legal;
      ghost var e := store.pool[j].value;
      LiveEntry(store.pool, store.index, store.tables, store.children, j);
      RestackedAgrees(store.pool, isV6, j, store.forwarding(e.pathList, e.payload));
      BackWalkView(Abs(), store.Rules(), isV6, e.table, e.key.pattern);
      store.BackWalkNotify(j);
      SameMasksAgree(old(store.tables), store.tables, isV6, slotsV4, slotsV6);
    }

    /** Requests that keep the state consistent: an add_replace names a live table or has nothing
        to add, an attach names a live table, and no flag is read past the family flags. */
    predicate MayAsk(q: Request)
      reads this, store
    {
      match q
      case AddReplaceMsg(v6, rules, index, _, _) =>
        && |store.tables| < NONE
        && (index != NONE && rules != [] ==>
              index < |isV6| && (index in store.tables || NothingToAdd(isV6, index, v6, rules)))
      case DelMsg(t) => t != NONE ==> t < |isV6|
      case InterfaceMsg(add, i, t, known) => t != NONE && known ==> t < |isV6| && (add ==> t in store.tables)
      case FibMsg(_) => true
      case BackWalkMsg(j) => Live(store.pool, j)
    }

    /** An add_replace message, as the machine sees it. */
    method OnAddReplace(q: Request) returns (rv: Status, ghost step: Option<Event>)
      requires Valid() && MayAsk(q) && q.AddReplaceMsg?
      modifies this, store
      ensures Valid() && Answers(old(Abs()), q, step)
      ensures Abs() == match step case None => old(Abs()) case Some(e) => Apply(old(Abs()), e)
    {
      hide Consistent, RulesOf, View, TablesAgree, PayloadsAgree, SlotsLive, Bypassed, SlotsOf, EnabledOf, RulesStatus,
           Apply, Legal;
      ghost var known := q.index in store.tables;
      var index';
      rv, index' := AddReplace(q.v6, q.rules, q.index, q.lengthOk, q.createRv);
      if !q.lengthOk || (q.index == NONE && q.createRv != 0) || (q.index != NONE && !known) {
        step := None;
      } else if q.index == NONE {
        step := Some(Create(index', q.v6, q.rules));
      } else {
        step := Some(Replace(q.index, q.v6, q.rules));
      }
    }

    method OnDel(q: Request) returns (rv: Status, ghost step: Option<Event>)
      requires Valid() && MayAsk(q) && q.DelMsg?
      modifies this, store
      ensures Valid() && Answers(old(Abs()), q, step)
      ensures Abs() == match step case None => old(Abs()) case Some(e) => Apply(old(Abs()), e)
    {
      hide Consistent, RulesOf, View, TablesAgree, PayloadsAgree, SlotsLive, Bypassed, SlotsOf, EnabledOf, InUse, Apply;
      rv := Delete(q.t);
      step := if q.t == NONE then None else Some(AclMachine.Event.Delete(q.t));
    }

    method OnInterface(q: Request) returns (rv: Status, ghost step: Option<Event>)
      requires Valid() && MayAsk(q) && q.InterfaceMsg?
      modifies this, store
      ensures Valid() && Answers(old(Abs()), q, step)
      ensures Abs() == match step case None => old(Abs()) case Some(e) => Apply(old(Abs()), e)
    {
      hide Consistent, RulesOf, View, TablesAgree, PayloadsAgree, SlotsLive, Bypassed, SlotsOf, EnabledOf, IsAttached,
           Shows, Apply;
      rv := InterfaceAddDel(q.add, q.i, q.t, q.known);
      if q.t == NONE || !q.known {
        step := None;
      } else {
        step := Some(if q.add then AclMachine.Event.Attach(q.i, q.t) else AclMachine.Event.Detach(q.i, q.t));
      }
    }

    /** One request is one event of the machine, or none. */
    method Handle(q: Request) returns (rv: Status, ghost step: Option<Event>)
      requires Valid() && MayAsk(q)
      modifies this, store
      ensures Valid()
      ensures Answers(old(Abs()), q, step)
      ensures Abs() == match step case None => old(Abs()) case Some(e) => Apply(old(Abs()), e)
    {
      hide Consistent, RulesOf, View, TablesAgree, PayloadsAgree, SlotsLive, Bypassed, SlotsOf, EnabledOf, Apply;
      rv := Ok;
      match q {
        case AddReplaceMsg(_, _, _, _, _) =>
          rv, step := OnAddReplace(q);
        case DelMsg(_) =>
          rv, step := OnDel(q);
        case InterfaceMsg(_, _, _, _) =>
          rv, step := OnInterface(q);
        case FibMsg(f) =>
          ForwardingChanges(f);
          step := Some(FibChange(f));
        case BackWalkMsg(j) =>
          ghost var e := store.pool[j].value;
          BackWalkNotify(j);
          step := Some(BackWalk(e.table, e.key.pattern));
      }
    }

    /** Any sequence of requests, from the start, up to one that may not be made: what the user
        sees is what the machine says of the events the requests cause. */
    method Run(qs: seq<Request>) returns (rvs: seq<Status>, ghost steps: seq<Option<Event>>)
      requires Valid() && Abs() == Fresh(store.forwarding)
      modifies this, store
      ensures Valid() && |rvs| == |steps| <= |qs|
      ensures |rvs| < |qs| ==> !MayAsk(qs[|rvs|])
      ensures var start := Fresh(old(store.forwarding));
              && Answered(start, qs[..|steps|], steps)
              && LegalRun(start, Events(steps))
              && Abs() == After(start, Events(steps))
    {
      hide Valid, Abs, Apply, Legal, Causes, Silent, Answers, Answered, MayAsk, LegalRun, After, Events;
      ghost var start := Abs();
      rvs, steps := [], [];
      NoEvents(start);
      assert qs[..0] == [];
      while |rvs| < |qs| && MayAsk(qs[|rvs|])
        invariant |rvs| == |steps| <= |qs| && Valid() && Answered(start, qs[..|steps|], steps)
        invariant LegalRun(start, Events(steps)) && Abs() == After(start, Events(steps))
        decreases |qs| - |rvs|
      {
        var q, rv := qs[|rvs|], Ok;
        ghost var step;
        rv, step := Handle(q);
        OneMore(start, qs[..|rvs|], steps, q, step);
        assert qs[..|rvs|] + [q] == qs[..|rvs| + 1];
        rvs, steps := rvs + [rv], steps + [step];
      }
    }

    /** What the user sees in any consistent state satisfies the machine's invariant. */
    lemma AbsInv()
      requires Valid()
      ensures AclMachine.Inv(Abs())
    {
      hide Consistent, RulesOf, PayloadsAgree, Bypassed;
      EnabledWhereSet(bypass, slotsV4, slotsV6);
    }
  }
}
