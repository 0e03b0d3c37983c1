/**
 The redirect store of the tunnel-termination ACL: a pool of redirect entries, a hash
 from match bytes followed by table index to pool index, the classifier sessions the
 data plane reads, and the FIB path-list children through which back-walks arrive.

 The classifier and the FIB are environment.  A classifier mask holds only 0xff and 0x00
 bytes, written here as true and false.  What a path list contributes to forwarding is
 the field `forwarding`, which the FIB may change at any time before it back-walks.
 */
module Redirects {
  import opened Basics

  datatype Proto = ProtoIp4 | ProtoIp6 | ProtoOther
  datatype Payload = UnicastIp4 | UnicastIp6
  datatype Path = Path(id: nat)
  datatype Dpo = Dpo(next: nat, index: nat)
  datatype Action = NoAction | SetMetadata

  datatype Status =
    | Ok
    | NoSuchTable
    | NoSuchEntry
    | InvalidAddressFamily
    | InvalidValue
    | InvalidValue2
    | InvalidValue3
    | InvalidSwIfIndex
    | RsrcInUse
    | Failed(code: int)

  datatype Session = Session(next: nat, opaqueIndex: nat, action: Action, metadata: nat)
  datatype Table = Table(mask: seq<bool>, sessions: map<seq<byte>, Session>)
  datatype Child = Child(pathList: Path, owner: nat)

  /** A hash key: match bytes followed by the table index. */
  datatype Key = Key(pattern: seq<byte>, table: u32)

  datatype Entry = Entry(
    key: Key,
    dpo: Dpo,
    pathList: Path,
    sibling: nat,
    opaqueIndex: nat,
    table: u32,
    payload: Payload)

  /** What a rule redirects to: its path and the DPO currently stacked for it. */
  datatype Target = Target(path: Path, dpo: Dpo)

  type Pool = seq<Option<Entry>>
  type Index = map<Key, nat>
  type Tables = map<u32, Table>
  type Children = map<nat, Child>

  const VECTOR_SIZE := 16

  function Masked(mask: seq<bool>, pattern: seq<byte>): (r: seq<byte>)
    requires |mask| <= |pattern|
    ensures |r| == |mask|
    ensures forall i :: 0 <= i < |r| ==> r[i] == if mask[i] then pattern[i] else 0
  {
    seq(|mask|, i requires 0 <= i < |mask| => if mask[i] then pattern[i] else 0)
  }

  function KeyBytes(k: Key): seq<byte> { k.pattern + Word(k.table) }

  /** The hash compares key bytes, so it tells two keys apart exactly when their match or
      their table differs. */
  lemma KeyBytesAreInjective(k: Key, l: Key)
    ensures KeyBytes(k) == KeyBytes(l) <==> k == l
  {
    if KeyBytes(k) == KeyBytes(l) {
      LoadOfWord(k.table);
      LoadOfWord(l.table);
      assert k.pattern == KeyBytes(k)[..|k.pattern|] && l.pattern == KeyBytes(l)[..|l.pattern|];
      assert Word(k.table) == KeyBytes(k)[|k.pattern|..] && Word(l.table) == KeyBytes(l)[|l.pattern|..];
    }
  }

  function SessionOf(e: Entry): Session {
    Session(e.dpo.next, e.opaqueIndex, SetMetadata, e.dpo.index)
  }

  predicate Live(pool: Pool, i: int) { 0 <= i < |pool| && pool[i].Some? }

  /** Live pool entries and hash keys are in bijection. */
  ghost predicate Indexed(pool: Pool, index: Index) {
    && (forall i :: Live(pool, i) ==>
          var e := pool[i].value;
          e.key.table == e.table && e.key in index && index[e.key] == i)
    && (forall k :: k in index ==> Live(pool, index[k]) && pool[index[k]].value.key == k)
  }

  /** The session of entry `e` is installed in its table and carries its stacked DPO. */
  ghost predicate Installed(e: Entry, tables: Tables)
  {
    && e.table in tables
    && |tables[e.table].mask| == VECTOR_SIZE == |e.key.pattern|
    && e.key.pattern == Masked(tables[e.table].mask, e.key.pattern)
    && e.key.pattern in tables[e.table].sessions
    && tables[e.table].sessions[e.key.pattern] == SessionOf(e)
  }

  /** Live pool entries and classifier sessions are in bijection. */
  ghost predicate InStep(pool: Pool, index: Index, tables: Tables) {
    && (forall i :: Live(pool, i) ==>
          Installed(pool[i].value, tables))
    && (forall t :: t in tables ==> |tables[t].mask| == VECTOR_SIZE)
    && (forall t, m :: t in tables && m in tables[t].sessions ==> Key(m, t) in index)
  }

  /** Every live entry holds exactly one path-list child, and every child is held. */
  ghost predicate Parented(pool: Pool, children: Children) {
    && (forall i :: Live(pool, i) ==>
          var e := pool[i].value;
          e.sibling in children && children[e.sibling] == Child(e.pathList, i))
    && (forall s :: s in children ==>
          Live(pool, children[s].owner) && pool[children[s].owner].value.sibling == s)
  }

  ghost predicate Consistent(pool: Pool, index: Index, tables: Tables, children: Children) {
    && Indexed(pool, index)
    && InStep(pool, index, tables)
    && Parented(pool, children)
    && AllResolved(pool, index, tables)
  }

  ghost function TargetAt(pool: Pool, index: Index, k: Key): Target
    requires k in index && Live(pool, index[k])
  {
    Target(pool[index[k]].value.pathList, pool[index[k]].value.dpo)
  }

  ghost predicate Resolved(pool: Pool, index: Index, sessions: map<seq<byte>, Session>, t: u32) {
    forall m :: m in sessions ==> Key(m, t) in index && Live(pool, index[Key(m, t)])
  }

  ghost function TableRules(pool: Pool, index: Index, sessions: map<seq<byte>, Session>, t: u32)
    : map<seq<byte>, Target>
    requires Resolved(pool, index, sessions, t)
  {
    map m | m in sessions :: TargetAt(pool, index, Key(m, t))
  }

  ghost predicate AllResolved(pool: Pool, index: Index, tables: Tables) {
    forall t :: t in tables ==> Resolved(pool, index, tables[t].sessions, t)
  }

  /** The rules of each table, by match bytes. */
  ghost function RulesOf(pool: Pool, index: Index, tables: Tables): (r: map<u32, map<seq<byte>, Target>>)
    requires AllResolved(pool, index, tables)
    ensures r.Keys == tables.Keys
  {
    map t | t in tables :: TableRules(pool, index, tables[t].sessions, t)
  }

  function Put(pool: Pool, i: nat, v: Option<Entry>): (r: Pool)
    requires i <= |pool|
    ensures |r| == if i == |pool| then |pool| + 1 else |pool|
    ensures r[i] == v
    ensures forall j :: 0 <= j < |pool| && j != i ==> r[j] == pool[j]
  {
    if i == |pool| then pool + [v] else pool[i := v]
  }

  /** The same tables are live, with the same masks. */
  ghost predicate SameMasks(tables: Tables, tables': Tables) {
    && tables.Keys == tables'.Keys
    && (forall t :: t in tables ==> tables[t].mask == tables'[t].mask)
  }

  lemma SameBinding(index: Index, k: Key)
    requires k in index
    ensures index[k := index[k]] == index
  {
  }

  lemma SameChild(children: Children, s: nat)
    requires s in children
    ensures (children - {s})[s := children[s]] == children
  {
  }

  function WithSession(tables: Tables, t: u32, m: seq<byte>, s: Session): (r: Tables)
    requires t in tables
    ensures SameMasks(tables, r)
  {
    tables[t := tables[t].(sessions := tables[t].sessions[m := s])]
  }

  function WithoutSession(tables: Tables, t: u32, m: seq<byte>): (r: Tables)
    requires t in tables
    ensures SameMasks(tables, r)
  {
    tables[t := tables[t].(sessions := tables[t].sessions - {m})]
  }

  /** Slot `i` may take an entry with this key: it already holds that key, or it is free
      and the key is new. */
  ghost predicate MayHold(pool: Pool, index: Index, i: nat, key: Key) {
    && i <= |pool|
    && if Live(pool, i) then key in index && index[key] == i else key !in index
  }

  ghost function Detached(pool: Pool, children: Children, i: nat): Children
  {
    if Live(pool, i) then children - {pool[i].value.sibling} else children
  }

  /** The store after installing `e` in slot `i`. */
  ghost predicate Binds(
    pool: Pool, index: Index, tables: Tables, i: nat, e: Entry,
    pool': Pool, index': Index, tables': Tables)
  {
    && Indexed(pool, index) && InStep(pool, index, tables)
    && MayHold(pool, index, i, e.key)
    && e.key.table == e.table && e.table in tables && |e.key.pattern| == VECTOR_SIZE
    && e.key.pattern == Masked(tables[e.table].mask, e.key.pattern)
    && pool' == Put(pool, i, Some(e))
    && index' == index[e.key := i]
    && tables' == WithSession(tables, e.table, e.key.pattern, SessionOf(e))
  }

  lemma BindKeepsIndexed(
    pool: Pool, index: Index, tables: Tables, i: nat, e: Entry,
    pool': Pool, index': Index, tables': Tables)
    requires Binds(pool, index, tables, i, e, pool', index', tables')
    ensures Indexed(pool', index')
  {
    forall j | Live(pool', j) && j != i
      ensures Live(pool, j) && pool'[j] == pool[j] && pool[j].value.key != e.key
    {
    }
  }

  lemma BindKeepsInStep(
    pool: Pool, index: Index, tables: Tables, i: nat, e: Entry,
    pool': Pool, index': Index, tables': Tables)
    requires Binds(pool, index, tables, i, e, pool', index', tables')
    ensures InStep(pool', index', tables')
  {
    forall j | Live(pool', j)
      ensures Installed(pool'[j].value, tables')
    {
      if j != i {
        var f := pool[j].value;
        assert Live(pool, j) && f.key != e.key;
      }
    }
    forall t, m | t in tables' && m in tables'[t].sessions
      ensures Key(m, t) in index'
    {
    }
  }

  lemma BindTable(pool: Pool, index: Index, i: nat, e: Entry, sessions: map<seq<byte>, Session>, s: Session, t: u32)
    requires i <= |pool| && Resolved(pool, index, sessions, t) && e.key.table == t
    requires forall k :: k in index && index[k] == i ==> k == e.key
    ensures Resolved(Put(pool, i, Some(e)), index[e.key := i], sessions[e.key.pattern := s], t)
    ensures TableRules(Put(pool, i, Some(e)), index[e.key := i], sessions[e.key.pattern := s], t)
         == TableRules(pool, index, sessions, t)[e.key.pattern := Target(e.pathList, e.dpo)]
  {
  }

  lemma BindOther(pool: Pool, index: Index, i: nat, e: Entry, sessions: map<seq<byte>, Session>, t: u32)
    requires i <= |pool| && Resolved(pool, index, sessions, t) && e.key.table != t
    requires forall k :: k in index && index[k] == i ==> k == e.key
    ensures Resolved(Put(pool, i, Some(e)), index[e.key := i], sessions, t)
    ensures TableRules(Put(pool, i, Some(e)), index[e.key := i], sessions, t)
         == TableRules(pool, index, sessions, t)
  {
  }

  lemma BindRules(
    pool: Pool, index: Index, tables: Tables, i: nat, e: Entry,
    pool': Pool, index': Index, tables': Tables)
    requires AllResolved(pool, index, tables)
    requires i <= |pool| && (forall k :: k in index && index[k] == i ==> k == e.key)
    requires e.key.table == e.table && e.table in tables
    requires pool' == Put(pool, i, Some(e)) && index' == index[e.key := i]
    requires tables' == WithSession(tables, e.table, e.key.pattern, SessionOf(e))
    ensures AllResolved(pool', index', tables')
    ensures var rules := RulesOf(pool, index, tables);
            RulesOf(pool', index', tables')
            == rules[e.table := rules[e.table][e.key.pattern := Target(e.pathList, e.dpo)]]
  {
    BindTable(pool, index, i, e, tables[e.table].sessions, SessionOf(e), e.table);
    forall t | t in tables && t != e.table
      ensures Resolved(pool', index', tables'[t].sessions, t)
      ensures TableRules(pool', index', tables'[t].sessions, t) == TableRules(pool, index, tables[t].sessions, t)
    {
      BindOther(pool, index, i, e, tables[t].sessions, t);
    }
  }

  /** Installing an entry, new or updated, keeps the store consistent and rebinds exactly
      one match of one table. */
  lemma BindKeepsConsistent(
    pool: Pool, index: Index, tables: Tables, children: Children, i: nat, e: Entry,
    pool': Pool, index': Index, tables': Tables)
    requires Consistent(pool, index, tables, children)
    requires Binds(pool, index, tables, i, e, pool', index', tables')
    requires e.sibling !in Detached(pool, children, i)
    ensures var children' := Detached(pool, children, i)[e.sibling := Child(e.pathList, i)];
            var rules := RulesOf(pool, index, tables);
            && Consistent(pool', index', tables', children')
            && RulesOf(pool', index', tables')
               == rules[e.table := rules[e.table][e.key.pattern := Target(e.pathList, e.dpo)]]
  {
    BindKeepsIndexed(pool, index, tables, i, e, pool', index', tables');
    BindKeepsInStep(pool, index, tables, i, e, pool', index', tables');
    BindRules(pool, index, tables, i, e, pool', index', tables');
    BindKeepsParented(pool, children, i, e);
  }

  lemma BindKeepsParented(pool: Pool, children: Children, i: nat, e: Entry)
    requires Parented(pool, children) && i <= |pool|
    requires e.sibling !in Detached(pool, children, i)
    ensures Parented(Put(pool, i, Some(e)),
                     Detached(pool, children, i)[e.sibling := Child(e.pathList, i)])
  {
    var pool' := Put(pool, i, Some(e));
    forall j | Live(pool', j) && j != i
      ensures Live(pool, j) && pool'[j] == pool[j]
    {
    }
  }

  /** The store after releasing live slot `i`. */
  ghost predicate Releases(
    pool: Pool, index: Index, tables: Tables, i: nat,
    pool': Pool, index': Index, tables': Tables)
  {
    && Indexed(pool, index) && InStep(pool, index, tables)
    && Live(pool, i)
    && var e := pool[i].value;
    && pool' == pool[i := None]
    && index' == index - {e.key}
    && tables' == WithoutSession(tables, e.table, e.key.pattern)
  }

  lemma ReleaseKeepsIndexed(
    pool: Pool, index: Index, tables: Tables, i: nat,
    pool': Pool, index': Index, tables': Tables)
    requires Releases(pool, index, tables, i, pool', index', tables')
    ensures Indexed(pool', index')
  {
    forall j | Live(pool', j)
      ensures Live(pool, j) && pool'[j] == pool[j] && j != i
    {
    }
  }

  lemma ReleaseKeepsInStep(
    pool: Pool, index: Index, tables: Tables, i: nat,
    pool': Pool, index': Index, tables': Tables)
    requires Releases(pool, index, tables, i, pool', index', tables')
    ensures InStep(pool', index', tables')
  {
    var e := pool[i].value;
    forall j | Live(pool', j)
      ensures Installed(pool'[j].value, tables')
    {
      var f := pool[j].value;
      assert Live(pool, j) && f.key != e.key;
    }
    forall t, m | t in tables' && m in tables'[t].sessions
      ensures Key(m, t) in index'
    {
    }
  }

  lemma ReleaseTable(pool: Pool, index: Index, i: nat, e: Entry, sessions: map<seq<byte>, Session>, t: u32)
    requires i < |pool| && Resolved(pool, index, sessions, t)
    requires e.key.table != t ==> e.key.pattern !in sessions
    requires forall k :: k in index && index[k] == i ==> k == e.key
    ensures Resolved(pool[i := None], index - {e.key}, sessions - {e.key.pattern}, t)
    ensures TableRules(pool[i := None], index - {e.key}, sessions - {e.key.pattern}, t)
         == TableRules(pool, index, sessions, t) - {e.key.pattern}
  {
  }

  lemma ReleaseOther(pool: Pool, index: Index, i: nat, e: Entry, sessions: map<seq<byte>, Session>, t: u32)
    requires i < |pool| && Resolved(pool, index, sessions, t) && e.key.table != t
    requires forall k :: k in index && index[k] == i ==> k == e.key
    ensures Resolved(pool[i := None], index - {e.key}, sessions, t)
    ensures TableRules(pool[i := None], index - {e.key}, sessions, t) == TableRules(pool, index, sessions, t)
  {
  }

  lemma ReleaseRules(
    pool: Pool, index: Index, tables: Tables, i: nat, e: Entry,
    pool': Pool, index': Index, tables': Tables)
    requires AllResolved(pool, index, tables)
    requires i < |pool| && (forall k :: k in index && index[k] == i ==> k == e.key)
    requires e.key.table == e.table && e.table in tables
    requires pool' == pool[i := None] && index' == index - {e.key}
    requires tables' == WithoutSession(tables, e.table, e.key.pattern)
    ensures AllResolved(pool', index', tables')
    ensures var rules := RulesOf(pool, index, tables);
            RulesOf(pool', index', tables') == rules[e.table := rules[e.table] - {e.key.pattern}]
  {
    ReleaseTable(pool, index, i, e, tables[e.table].sessions, e.table);
    forall t | t in tables && t != e.table
      ensures Resolved(pool', index', tables'[t].sessions, t)
      ensures TableRules(pool', index', tables'[t].sessions, t) == TableRules(pool, index, tables[t].sessions, t)
    {
      ReleaseOther(pool, index, i, e, tables[t].sessions, t);
    }
  }

  /** Releasing a live entry with its key, session and child keeps the store consistent and
      unbinds exactly one match of one table. */
  lemma ReleaseKeepsConsistent(
    pool: Pool, index: Index, tables: Tables, children: Children, i: nat,
    pool': Pool, index': Index, tables': Tables)
    requires Consistent(pool, index, tables, children)
    requires Releases(pool, index, tables, i, pool', index', tables')
    ensures var e, rules := pool[i].value, RulesOf(pool, index, tables);
            && Consistent(pool', index', tables', children - {e.sibling})
            && RulesOf(pool', index', tables') == rules[e.table := rules[e.table] - {e.key.pattern}]
  {
    ReleaseKeepsIndexed(pool, index, tables, i, pool', index', tables');
    ReleaseKeepsInStep(pool, index, tables, i, pool', index', tables');
    ReleaseRules(pool, index, tables, i, pool[i].value, pool', index', tables');
    ReleaseKeepsParented(pool, children, i);
  }

  lemma ReleaseKeepsParented(pool: Pool, children: Children, i: nat)
    requires Parented(pool, children) && Live(pool, i)
    ensures Parented(pool[i := None], children - {pool[i].value.sibling})
  {
    forall j | Live(pool[i := None], j)
      ensures Live(pool, j) && j != i
    {
    }
  }

  /** Restacking a live entry keeps the store consistent and moves only its own target. */
  lemma RestackKeepsConsistent(
    pool: Pool, index: Index, tables: Tables, children: Children, i: nat, e: Entry, pool': Pool, tables': Tables)
    requires Consistent(pool, index, tables, children)
    requires Live(pool, i) && e == pool[i].value.(dpo := e.dpo)
    requires pool' == pool[i := Some(e)]
    requires e.table in tables && tables' == WithSession(tables, e.table, e.key.pattern, SessionOf(e))
    ensures Consistent(pool', index, tables', children)
    ensures var rules := RulesOf(pool, index, tables);
            RulesOf(pool', index, tables')
            == rules[e.table := rules[e.table][e.key.pattern := Target(e.pathList, e.dpo)]]
  {
    hide Indexed, InStep, Parented, AllResolved, RulesOf;
    LiveEntry(pool, index, tables, children, i);
    SameBinding(index, e.key);
    BindKeepsConsistent(pool, index, tables, children, i, e, pool', index, tables');
    SameChild(children, e.sibling);
  }

  lemma NewTableInStep(pool: Pool, index: Index, tables: Tables, t: u32, mask: seq<bool>)
    requires InStep(pool, index, tables) && t !in tables && |mask| == VECTOR_SIZE
    ensures InStep(pool, index, tables[t := Table(mask, map[])])
  {
    var tables' := tables[t := Table(mask, map[])];
    forall i | Live(pool, i)
      ensures Installed(pool[i].value, tables')
    {
      assert Installed(pool[i].value, tables);
    }
  }

  lemma NewTableRules(pool: Pool, index: Index, tables: Tables, t: u32, mask: seq<bool>)
    requires AllResolved(pool, index, tables) && t !in tables
    ensures var tables' := tables[t := Table(mask, map[])];
            && AllResolved(pool, index, tables')
            && RulesOf(pool, index, tables') == RulesOf(pool, index, tables)[t := map[]]
  {
    var tables' := tables[t := Table(mask, map[])];
    assert Resolved(pool, index, map[], t);
    forall u | u in tables
      ensures Resolved(pool, index, tables'[u].sessions, u)
      ensures TableRules(pool, index, tables'[u].sessions, u) == TableRules(pool, index, tables[u].sessions, u)
    {
    }
    assert TableRules(pool, index, map[], t) == map[];
  }

  lemma DropTableInStep(pool: Pool, index: Index, tables: Tables, t: u32)
    requires InStep(pool, index, tables) && (t in tables ==> tables[t].sessions == map[])
    ensures InStep(pool, index, tables - {t})
  {
    forall i | Live(pool, i)
      ensures Installed(pool[i].value, tables - {t})
    {
      assert Installed(pool[i].value, tables);
    }
  }

  lemma DropTableRules(pool: Pool, index: Index, tables: Tables, t: u32)
    requires AllResolved(pool, index, tables)
    ensures AllResolved(pool, index, tables - {t})
    ensures RulesOf(pool, index, tables - {t}) == RulesOf(pool, index, tables) - {t}
  {
    forall u | u in tables && u != t
      ensures Resolved(pool, index, (tables - {t})[u].sessions, u)
    {
    }
  }

  /** The pool without the entries of one table. */
  ghost function Without(pool: Pool, table: u32): Pool {
    seq(|pool|, i requires 0 <= i < |pool| =>
      if pool[i].Some? && pool[i].value.table == table then None else pool[i])
  }

  /** The pool indices of one table's entries, in pool order. */
  function OfTable(pool: Pool, table: u32): seq<nat> {
    if pool == [] then []
    else
      var i := |pool| - 1;
      OfTable(pool[..i], table)
      + if pool[i].Some? && pool[i].value.table == table then [i] else []
  }

  lemma {:induction false} OfTableLists(pool: Pool, table: u32)
    ensures forall i :: i in OfTable(pool, table) <==> Live(pool, i) && pool[i].value.table == table
    ensures forall j, k :: 0 <= j < k < |OfTable(pool, table)| ==> OfTable(pool, table)[j] != OfTable(pool, table)[k]
  {
    if pool != [] {
      var n := |pool| - 1;
      var rest := OfTable(pool[..n], table);
      OfTableLists(pool[..n], table);
      var all := OfTable(pool, table);
      assert all == rest || all == rest + [n];
      forall i
        ensures i in all <==> Live(pool, i) && pool[i].value.table == table
      {
        assert i in rest <==> Live(pool[..n], i) && pool[..n][i].value.table == table;
      }
      forall j, k | 0 <= j < k < |all|
        ensures all[j] != all[k]
      {
        assert all[j] in rest && all[j] == rest[j];
      }
    }
  }

  lemma SessionHasEntry(pool: Pool, index: Index, tables: Tables, t: u32, m: seq<byte>)
    requires Indexed(pool, index) && InStep(pool, index, tables)
    requires t in tables && m in tables[t].sessions
    ensures exists i :: Live(pool, i) && pool[i].value.key == Key(m, t) && pool[i].value.table == t
  {
    assert Live(pool, index[Key(m, t)]);
  }

  lemma EmptyTable(pool: Pool, index: Index, tables: Tables, table: u32)
    requires Indexed(pool, index) && InStep(pool, index, tables) && AllResolved(pool, index, tables)
    requires forall i :: Live(pool, i) ==> pool[i].value.table != table
    ensures table in tables ==> RulesOf(pool, index, tables)[table] == map[]
  {
    if table in tables {
      forall m | m in tables[table].sessions
        ensures false
      {
        SessionHasEntry(pool, index, tables, table, m);
      }
    }
  }

  lemma LiveEntry(pool: Pool, index: Index, tables: Tables, children: Children, i: nat)
    requires Consistent(pool, index, tables, children) && Live(pool, i)
    ensures var e := pool[i].value;
            && Installed(e, tables)
            && e.key.table == e.table
            && e.key in index && index[e.key] == i
            && e.sibling in children && children[e.sibling] == Child(e.pathList, i)
            && e.table in RulesOf(pool, index, tables)
            && e.key.pattern in RulesOf(pool, index, tables)[e.table]
            && RulesOf(pool, index, tables)[e.table][e.key.pattern] == Target(e.pathList, e.dpo)
  {
  }

  lemma OrphanBreaksConsistency(pool: Pool, index: Index, tables: Tables, children: Children, i: nat)
    requires Live(pool, i) && pool[i].value.table !in tables
    ensures !Consistent(pool, index, tables, children)
  {
    assert !Installed(pool[i].value, tables);
  }

  /** The first `j` of the listed entries are gone; everything else is as it was. */
  ghost predicate Deleting(was: Pool, pool: Pool, doomed: seq<nat>, j: nat) {
    && |pool| == |was| && j <= |doomed|
    && (forall k :: 0 <= k < |doomed| ==> doomed[k] < |was|)
    && (forall k, l :: 0 <= k < l < |doomed| ==> doomed[k] != doomed[l])
    && (forall k :: 0 <= k < j ==> pool[doomed[k]] == None)
    && (forall k :: j <= k < |doomed| ==> pool[doomed[k]] == was[doomed[k]])
    && (forall i :: 0 <= i < |pool| && i !in doomed ==> pool[i] == was[i])
  }

  lemma StartDeleting(pool: Pool, table: u32)
    ensures Deleting(pool, pool, OfTable(pool, table), 0)
  {
    hide OfTable;
    OfTableLists(pool, table);
    var doomed := OfTable(pool, table);
    forall k | 0 <= k < |doomed|
      ensures doomed[k] < |pool|
    {
      assert doomed[k] in doomed;
    }
  }

  lemma DeleteOne(was: Pool, pool: Pool, table: u32, j: nat)
    requires Deleting(was, pool, OfTable(was, table), j) && j < |OfTable(was, table)|
    ensures var i := OfTable(was, table)[j];
            && Live(pool, i) && pool[i].value.table == table
            && Deleting(was, pool[i := None], OfTable(was, table), j + 1)
  {
    hide OfTable;
    OfTableLists(was, table);
    assert OfTable(was, table)[j] in OfTable(was, table);
  }

  lemma AllDeleted(was: Pool, pool: Pool, table: u32)
    requires Deleting(was, pool, OfTable(was, table), |OfTable(was, table)|)
    ensures pool == Without(was, table)
  {
    hide OfTable;
    OfTableLists(was, table);
    var doomed := OfTable(was, table);
    forall i | 0 <= i < |pool|
      ensures pool[i] == Without(was, table)[i]
    {
      if i in doomed {
        var k :| 0 <= k < |doomed| && doomed[k] == i;
      }
    }
  }

  /** Tables other than this one keep their rules. */
  ghost predicate SameElsewhere(
    was: map<u32, map<seq<byte>, Target>>, rules: map<u32, map<seq<byte>, Target>>, t: u32)
  {
    rules.Keys == was.Keys && forall u :: u in rules && u != t ==> rules[u] == was[u]
  }

  class RedirectStore {
    var pool: Pool
    var index: Index
    var tables: Tables
    var children: Children
    var forwarding: (Path, Payload) -> Dpo

    ghost predicate Valid()
      reads this
    {
      Consistent(pool, index, tables, children)
    }

    ghost function Rules(): map<u32, map<seq<byte>, Target>>
      requires Valid()
      reads this
    {
      RulesOf(pool, index, tables)
    }

    constructor (forwarding: (Path, Payload) -> Dpo)
      ensures Valid() && Rules() == map[]
      ensures pool == [] && tables == map[] && this.forwarding == forwarding
    {
      pool, index, tables, children := [], map[], map[], map[];
      this.forwarding := forwarding;
    }

    /** The entry bound to this match in this table, if any. */
    method Find(table: u32, pattern: seq<byte>) returns (r: Option<nat>)
      requires Valid()
      ensures r.Some? <==> table in tables && pattern in tables[table].sessions
      ensures r.Some? <==> Key(pattern, table) in index
      ensures r.Some? ==>
                && r.value == index[Key(pattern, table)]
                && Live(pool, r.value) && pool[r.value].value.key == Key(pattern, table)
    {
      var k := Key(pattern, table);
      r := if k in index then Some(index[k]) else None;
    }

    /** A free pool slot, possibly one past the end. */
    method PoolGet() returns (i: nat)
      ensures i <= |pool| && !Live(pool, i)
    {
      i := 0;
      while i < |pool| && pool[i].Some?
        invariant i <= |pool|
      {
        i := i + 1;
      }
    }

    /** Stacks the entry's DPO on what its path list contributes now, and rewrites its
        session to match. */
    method Stack(i: nat) returns (rv: Status)
      requires Live(pool, i)
      modifies this`pool, this`tables
      ensures var e := old(pool[i].value);
              var e' := e.(dpo := forwarding(e.pathList, e.payload));
              && pool == old(pool)[i := Some(e')]
              && (e.table in old(tables) ==>
                    rv == Ok && tables == WithSession(old(tables), e.table, e.key.pattern, SessionOf(e')))
              && (e.table !in old(tables) ==> rv == NoSuchTable && tables == old(tables))
    {
      var e := pool[i].value;
      e := e.(dpo := forwarding(e.pathList, e.payload));
      pool := pool[i := Some(e)];
      if e.table !in tables {
        return NoSuchTable;
      }
      tables := WithSession(tables, e.table, e.key.pattern, SessionOf(e));
      return Ok;
    }

    /** The slot for a match of a table: the one that holds it, now detached from its path
        list, or a free one, now indexed. */
    method Slot(table: u32, pattern: seq<byte>) returns (i: nat)
      requires Valid()
      modifies this`index, this`children
      ensures MayHold(pool, old(index), i, Key(pattern, table))
      ensures Live(pool, i) ==> table in tables
      ensures index == old(index)[Key(pattern, table) := i]
      ensures children == Detached(pool, old(children), i)
    {
      hide Indexed, InStep, Parented, AllResolved;
      var found := Find(table, pattern);
      if found.Some? {
        i := found.value;
        SameBinding(index, Key(pattern, table));
        children := children - {pool[i].value.sibling};
      } else {
        i := PoolGet();
        index := index[Key(pattern, table) := i];
      }
    }

    /** Binds a match of a table to a path.  On a table that is not live the new entry is
        left in the pool without a session, so consistency survives exactly when the
        table is live. */
    method Add(table: u32, opaqueIndex: nat, proto: Proto, pattern: seq<byte>, path: Path) returns (rv: Status)
      requires Valid() && |pattern| == VECTOR_SIZE
      requires table in tables ==> pattern == Masked(tables[table].mask, pattern)
      modifies this
      ensures forwarding == old(forwarding)
      ensures proto == ProtoOther ==>
                rv == InvalidAddressFamily && Valid() && tables == old(tables) && Rules() == old(Rules())
      ensures proto != ProtoOther ==>
                && (Valid() <==> table in old(tables))
                && rv == if table in old(tables) then Ok else NoSuchTable
      ensures rv == Ok ==>
                var dpo := forwarding(path, if proto == ProtoIp6 then UnicastIp6 else UnicastIp4);
                Rules() == old(Rules())[table := old(Rules())[table][pattern := Target(path, dpo)]]
      ensures SameMasks(old(tables), tables)
      ensures rv == Ok ==> forall j :: Live(pool, j) ==>
                || (Live(old(pool), j) && pool[j] == old(pool)[j])
                || (pool[j].value.table == table
                    && pool[j].value.payload == if proto == ProtoIp6 then UnicastIp6 else UnicastIp4)
    {
      hide Indexed, InStep, Parented, AllResolved, RulesOf;
      var payload;
      match proto {
        case ProtoIp4 => payload := UnicastIp4;
        case ProtoIp6 => payload := UnicastIp6;
        case ProtoOther => return InvalidAddressFamily;
      }
      var i := Slot(table, pattern);
      var sibling := FreeIndex(children.Keys);
      children := children[sibling := Child(path, i)];
      pool := Put(pool, i, Some(Entry(Key(pattern, table), Dpo(0, 0), path, sibling, opaqueIndex, table, payload)));
      rv := Stack(i);
      var e := pool[i].value;
      assert pool == Put(old(pool), i, Some(e));
      if rv == Ok {
        assert Binds(old(pool), old(index), old(tables), i, e, pool, index, tables);
        BindKeepsConsistent(old(pool), old(index), old(tables), old(children), i, e, pool, index, tables);
      } else {
        OrphanBreaksConsistency(pool, index, tables, children, i);
      }
    }

    /** Removes a live entry with its session, hash key and path-list child. */
    method DelIpr(i: nat) returns (rv: Status)
      requires Valid() && Live(pool, i)
      modifies this`pool, this`index, this`tables, this`children
      ensures Valid() && rv == Ok
      ensures pool == old(pool)[i := None]
      ensures SameMasks(old(tables), tables)
      ensures Rules().Keys == old(Rules()).Keys
      ensures var e := old(pool)[i].value;
              && e.table in old(Rules())
              && Rules() == old(Rules())[e.table := old(Rules())[e.table] - {e.key.pattern}]
    {
      hide Indexed, InStep, Parented, AllResolved, RulesOf;
      var e := pool[i].value;
      LiveEntry(pool, index, tables, children, i);
      if e.table !in tables {
        return NoSuchTable;
      }
      if e.key.pattern !in tables[e.table].sessions {
        return NoSuchEntry;
      }
      ghost var pool0, index0, tables0, children0 := pool, index, tables, children;
      tables := WithoutSession(tables, e.table, e.key.pattern);
      index := index - {e.key};
      children := children - {e.sibling};
      pool := pool[i := None];
      ReleaseKeepsConsistent(pool0, index0, tables0, children0, i, pool, index, tables);
      return Ok;
    }

    method Del(table: u32, pattern: seq<byte>) returns (rv: Status)
      requires Valid()
      modifies this`pool, this`index, this`tables, this`children
      ensures Valid()
      ensures var was := old(Rules());
              if table in was && pattern in was[table]
              then rv == Ok && Rules() == was[table := was[table] - {pattern}]
              else rv == NoSuchEntry && Rules() == was
    {
      var found := Find(table, pattern);
      if found.None? {
        return NoSuchEntry;
      }
      rv := DelIpr(found.value);
    }

    /** Removes every entry of one table and nothing else.  In a consistent store it cannot
        fail, and it leaves alone a store in which the table is not live. */
    method Clear(table: u32) returns (rv: Status)
      requires Valid()
      modifies this`pool, this`index, this`tables, this`children
      ensures Valid() && rv == Ok
      ensures pool == Without(old(pool), table)
      ensures SameMasks(old(tables), tables)
      ensures Rules() == if table in old(tables) then old(Rules())[table := map[]] else old(Rules())
    {
      var doomed := Entries(table);
      hide Indexed, InStep, Parented, AllResolved;
      rv := DeleteEach(doomed, table);
      OfTableLists(old(pool), table);
      EmptyTable(pool, index, tables, table);
    }

    /** The indices of a table's live entries, collected in pool order. */
    method Entries(table: u32) returns (r: seq<nat>)
      ensures r == OfTable(pool, table)
    {
      r := [];
      var i := 0;
      while i < |pool|
        invariant i <= |pool|
        invariant r == OfTable(pool[..i], table)
      {
        assert pool[..i + 1][..i] == pool[..i];
        if pool[i].Some? && pool[i].value.table == table {
          r := r + [i];
        }
        i := i + 1;
      }
      assert pool[..i] == pool;
    }

    method DeleteEach(doomed: seq<nat>, table: u32) returns (rv: Status)
      requires Valid() && doomed == OfTable(pool, table)
      modifies this`pool, this`index, this`tables, this`children
      ensures Valid() && rv == Ok
      ensures pool == Without(old(pool), table)
      ensures SameMasks(old(tables), tables)
      ensures SameElsewhere(old(Rules()), Rules(), table)
    {
      hide Consistent, RulesOf, OfTable, Deleting;
      StartDeleting(pool, table);
      var j := 0;
      while j < |doomed|
        invariant j <= |doomed|
        invariant Valid() && SameMasks(old(tables), tables)
        invariant Deleting(old(pool), pool, doomed, j)
        invariant SameElsewhere(old(Rules()), Rules(), table)
      {
        DeleteOne(old(pool), pool, table, j);
        rv := DelIpr(doomed[j]);
        if rv != Ok {
          return rv;
        }
        j := j + 1;
      }
      rv := Ok;
      AllDeleted(old(pool), pool, table);
    }

    /** A back-walk reaches the entry: its DPO and its session follow the path list. */
    method BackWalkNotify(i: nat)
      requires Valid() && Live(pool, i)
      modifies this`pool, this`tables
      ensures Valid() && SameMasks(old(tables), tables)
      ensures var e := old(pool)[i].value;
              pool == old(pool)[i := Some(e.(dpo := forwarding(e.pathList, e.payload)))]
      ensures var e := old(pool)[i].value;
              Rules() == old(Rules())[e.table := old(Rules())[e.table][
                e.key.pattern := Target(e.pathList, forwarding(e.pathList, e.payload))]]
    {
      var rv := Stack(i);
      hide Indexed, InStep, Parented, AllResolved, RulesOf;
      LiveEntry(old(pool), index, old(tables), children, i);
      RestackKeepsConsistent(old(pool), index, old(tables), children, i, pool[i].value, pool, tables);
    }

    /** The FIB resolves paths differently from now on; back-walks follow. */
    method ForwardingChanges(f: (Path, Payload) -> Dpo)
      modifies this`forwarding
      ensures forwarding == f
    {
      forwarding := f;
    }

    /** The classifier creates an empty table, possibly under an index freed earlier. */
    method AddTable(mask: seq<bool>) returns (t: u32)
      requires Valid() && |mask| == VECTOR_SIZE && |tables| < NONE
      modifies this`tables
      ensures Valid() && t !in old(tables) && t != NONE
      ensures tables == old(tables)[t := Table(mask, map[])]
      ensures Rules() == old(Rules())[t := map[]]
    {
      hide Indexed, InStep, Parented, AllResolved;
      t := FreeIndex(tables.Keys);
      NewTableInStep(pool, index, tables, t, mask);
      NewTableRules(pool, index, tables, t, mask);
      tables := tables[t := Table(mask, map[])];
    }

    /** The classifier deletes a table; an index that is not live is tolerated. */
    method DeleteTable(t: u32)
      requires Valid() && (t in tables ==> Rules()[t] == map[])
      modifies this`tables
      ensures Valid()
      ensures tables == old(tables) - {t}
      ensures Rules() == old(Rules()) - {t}
    {
      assert t in tables ==> tables[t].sessions.Keys == Rules()[t].Keys;
      hide Indexed, InStep, Parented, AllResolved;
      DropTableInStep(pool, index, tables, t);
      DropTableRules(pool, index, tables, t);
      tables := tables - {t};
    }
  }
}
