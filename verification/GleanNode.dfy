/**
 The sonic-ext-glean-redirect node on the drop arcs: a packet dropped because its next hop is
 unresolved is handed to the kernel through the host tap of its ingress port, at most once
 per adjacency and ingress interface in a throttle window.
 */
module GleanNode {
  import opened Basics
  import opened Buffers
  import opened WireFrame
  import opened AggrTapNode

  datatype Kind = Glean | Arp | OtherAdj

  datatype Adjacency = Adjacency(kind: Kind, egress: nat)

  /** What the node consults; any of it may differ from one packet to the next. */
  datatype Env = Env(
    punt: bool,
    ports: Ports,
    sources: seq<u32>,
    nodeOf: nat -> u32,
    adjacencies: map<nat, Adjacency>,
    feature: Buffer -> nat)

  datatype Item = Item(env: Env, b: Buffer)

  datatype Drop = Stolen | NotNbrNode | NotGlean | Uncaptured | Unpaired | Throttled | TurnedOff

  datatype Ruling = Ruling(b: Buffer, next: nat, drop: Drop)

  datatype Key = Key(adj: nat, origRx: nat)

  function KeyOf(b: Buffer): Key { Key(b.adj, b.cookie.origRx) }

  // ----- Who may be redirected -----

  /** Dropped by one of the listed neighbour-resolution nodes. */
  ghost predicate FromNbr(env: Env, b: Buffer) {
    exists i :: 0 <= i < |env.sources| && env.sources[i] != NONE && env.sources[i] == env.nodeOf(b.error)
  }

  /** Its adjacency is unresolved and leaves through an existing interface. */
  predicate Unresolved(env: Env, adj: nat) {
    && adj != NONE && adj in env.adjacencies
    && env.adjacencies[adj].kind != OtherAdj
    && env.adjacencies[adj].egress in env.ports.interfaces
  }

  /** Packets that take a token of the throttle. */
  ghost predicate Eligible(x: Item) {
    x.env.punt && FromNbr(x.env, x.b) && Unresolved(x.env, x.b.adj) && x.b.cookie.valid
  }

  method FromNbrNode(sources: seq<u32>, ni: u32) returns (r: bool)
    ensures r <==> exists i :: 0 <= i < |sources| && sources[i] != NONE && sources[i] == ni
  {
    var i := 0;
    while i < |sources|
      invariant i <= |sources|
      invariant forall k :: 0 <= k < i ==> !(sources[k] != NONE && sources[k] == ni)
    {
      if sources[i] != NONE && ni == sources[i] {
        return true;
      }
      i := i + 1;
    }
    return false;
  }

  // ----- One packet -----

  /** One packet under the throttle bits set so far; `bucket` is the throttle's hash under the
      window's seed. */
  ghost function Step(bucket: Key -> nat, bits: set<nat>, x: Item): (Ruling, set<nat>)
    requires Ready(x.b)
  {
    var b, h, on := x.b, bucket(KeyOf(x.b)), Onward(x.env.feature, x.b);
    if !x.env.punt then (Ruling(b, on, TurnedOff), bits)
    else if !FromNbr(x.env, b) then (Ruling(b, on, NotNbrNode), bits)
    else if !Unresolved(x.env, b.adj) then (Ruling(b, on, NotGlean), bits)
    else if !b.cookie.valid then (Ruling(b, on, Uncaptured), bits)
    else if h in bits then (Ruling(b, on, Throttled), bits)
    else match TapFor(x.env.ports, b.cookie.origRx, NONE)
      case None => (Ruling(b, on, Unpaired), bits + {h})
      case Some(tap) => (Ruling(Spent(Restored(b)).(tx := tap), NEXT_INTERFACE_OUTPUT, Stolen), bits + {h})
  }

  /** `deref` tells whether the adjacency was read. */
  method Rule(env: Env, bucket: Key -> nat, bits: set<nat>, b: Buffer)
    returns (r: Ruling, bits': set<nat>, ghost deref: bool)
    requires Ready(b)
    ensures (r, bits') == Step(bucket, bits, Item(env, b))
    ensures deref ==> env.punt && FromNbr(env, b) && b.adj in env.adjacencies
  {
    bits', deref := bits, false;
    var next := env.feature(b) % 0x1_0000;
    if !env.punt {
      return Ruling(b, next, TurnedOff), bits', deref;
    }
    var nbr := FromNbrNode(env.sources, env.nodeOf(b.error));
    if !nbr {
      return Ruling(b, next, NotNbrNode), bits', deref;
    }
    if b.adj == NONE || b.adj !in env.adjacencies {
      return Ruling(b, next, NotGlean), bits', deref;
    }
    deref := true;
    var adj := env.adjacencies[b.adj];
    if (adj.kind != Glean && adj.kind != Arp) || adj.egress !in env.ports.interfaces {
      return Ruling(b, next, NotGlean), bits', deref;
    }
    if !b.cookie.valid {
      return Ruling(b, next, Uncaptured), bits', deref;
    }
    var h := bucket(KeyOf(b));
    if h in bits {
      return Ruling(b, next, Throttled), bits', deref;
    }
    bits' := bits + {h};
    var ok, b', pushed := RedirectToIngressTap(env.ports, b, b.cookie.origRx, NONE);
    if !ok {
      return Ruling(b', next, Unpaired), bits', deref;
    }
    return Ruling(b', NEXT_INTERFACE_OUTPUT, Stolen), bits', deref;
  }

  // ----- A window -----

  /** All packets of one thread in one throttle window, in order, whatever frames they come in. */
  ghost function Walk(bucket: Key -> nat, bits: set<nat>, xs: seq<Item>): (r: (seq<Ruling>, set<nat>))
    requires forall k :: 0 <= k < |xs| ==> Ready(xs[k].b)
    ensures |r.0| == |xs|
  {
    if xs == [] then ([], bits)
    else
      var n := |xs| - 1;
      var (rs, bits') := Walk(bucket, bits, xs[..n]);
      var (r, bits'') := Step(bucket, bits', xs[n]);
      (rs + [r], bits'')
  }

  ghost predicate Took(bucket: Key -> nat, xs: seq<Item>, i: int, h: nat) {
    0 <= i < |xs| && Eligible(xs[i]) && bucket(KeyOf(xs[i].b)) == h
  }

  /** A bit is set exactly when it was, or when an eligible packet took it. */
  lemma {:induction false} BitsAreTaken(bucket: Key -> nat, bits: set<nat>, xs: seq<Item>, h: nat)
    requires forall k :: 0 <= k < |xs| ==> Ready(xs[k].b)
    ensures h in Walk(bucket, bits, xs).1 <==> h in bits || exists i :: Took(bucket, xs, i, h)
  {
    if xs != [] {
      var n := |xs| - 1;
      BitsAreTaken(bucket, bits, xs[..n], h);
      if i :| Took(bucket, xs[..n], i, h) {
        assert Took(bucket, xs, i, h);
      }
      if i :| Took(bucket, xs, i, h) {
        assert i < n ==> Took(bucket, xs[..n], i, h);
        assert i == n ==> h in Step(bucket, Walk(bucket, bits, xs[..n]).1, xs[n]).1;
      }
      if h in Walk(bucket, bits, xs).1 && h !in Walk(bucket, bits, xs[..n]).1 {
        assert Took(bucket, xs, n, h);
      }
    }
  }

  lemma {:induction false} RulingAt(bucket: Key -> nat, bits: set<nat>, xs: seq<Item>, j: nat)
    requires j < |xs| && forall k :: 0 <= k < |xs| ==> Ready(xs[k].b)
    ensures Walk(bucket, bits, xs).0[j] == Step(bucket, Walk(bucket, bits, xs[..j]).1, xs[j]).0
  {
    var n := |xs| - 1;
    if j < n {
      RulingAt(bucket, bits, xs[..n], j);
      assert xs[..n][..j] == xs[..j];
    }
  }

  /** In a window that starts clear, an eligible packet is throttled exactly when an earlier
      eligible packet hashed to the same bucket. */
  lemma {:induction false} ThrottledIff(bucket: Key -> nat, xs: seq<Item>, j: nat)
    requires j < |xs| && forall k :: 0 <= k < |xs| ==> Ready(xs[k].b)
    ensures Walk(bucket, {}, xs).0[j].drop == Throttled <==>
            Eligible(xs[j]) && exists i :: i < j && Took(bucket, xs, i, bucket(KeyOf(xs[j].b)))
  {
    var h := bucket(KeyOf(xs[j].b));
    RulingAt(bucket, {}, xs, j);
    BitsAreTaken(bucket, {}, xs[..j], h);
    if i :| Took(bucket, xs[..j], i, h) {
      assert i < j && Took(bucket, xs, i, h);
    }
    if i :| i < j && Took(bucket, xs, i, h) {
      assert Took(bucket, xs[..j], i, h);
    }
  }

  /** Whatever the hash, at most one packet per adjacency and ingress interface is redirected in
      a window. */
  lemma {:induction false} RateBound(bucket: Key -> nat, xs: seq<Item>, i: nat, j: nat)
    requires i < j < |xs| && forall k :: 0 <= k < |xs| ==> Ready(xs[k].b)
    requires Walk(bucket, {}, xs).0[i].drop == Stolen && Walk(bucket, {}, xs).0[j].drop == Stolen
    ensures xs[i].b.adj != xs[j].b.adj || xs[i].b.cookie.origRx != xs[j].b.cookie.origRx
  {
    RulingAt(bucket, {}, xs, i);
    RulingAt(bucket, {}, xs, j);
    ThrottledIff(bucket, xs, j);
    assert Took(bucket, xs, i, bucket(KeyOf(xs[i].b)));
  }

  /** Two stretches of a window compose. */
  lemma {:induction false} WalkSplits(bucket: Key -> nat, bits: set<nat>, xs: seq<Item>, ys: seq<Item>)
    requires forall k :: 0 <= k < |xs| ==> Ready(xs[k].b)
    requires forall k :: 0 <= k < |ys| ==> Ready(ys[k].b)
    ensures var (rs, bits') := Walk(bucket, bits, xs);
            var (ss, bits'') := Walk(bucket, bits', ys);
            Walk(bucket, bits, xs + ys) == (rs + ss, bits'')
  {
    if ys == [] {
      assert xs + ys == xs && Walk(bucket, bits, xs).0 + [] == Walk(bucket, bits, xs).0;
    } else {
      var n := |ys| - 1;
      WalkSplits(bucket, bits, xs, ys[..n]);
      assert (xs + ys)[..|xs| + n] == xs + ys[..n] && (xs + ys)[|xs| + n] == ys[n];
      var (rs, bits') := Walk(bucket, bits, xs);
      var (ss, _) := Walk(bucket, bits', ys[..n]);
      var r := Step(bucket, Walk(bucket, bits', ys[..n]).1, ys[n]).0;
      assert rs + ss + [r] == rs + (ss + [r]);
    }
  }

  // ----- The node -----

  function Items(env: Env, bs: seq<Buffer>): (r: seq<Item>)
    ensures |r| == |bs| && forall k :: 0 <= k < |r| ==> r[k] == Item(env, bs[k])
  {
    seq(|bs|, k requires 0 <= k < |bs| => Item(env, bs[k]))
  }

  function DropOf(r: Ruling): Drop { r.drop }

  /** The seven outcomes partition every frame. */
  lemma {:induction false} DropsPartition(rs: seq<Ruling>)
    ensures Tally(rs, DropOf, Stolen) + Tally(rs, DropOf, NotNbrNode) + Tally(rs, DropOf, NotGlean)
          + Tally(rs, DropOf, Uncaptured) + Tally(rs, DropOf, Unpaired) + Tally(rs, DropOf, Throttled)
          + Tally(rs, DropOf, TurnedOff) == |rs|
  {
    if rs != [] {
      var n := |rs| - 1;
      DropsPartition(rs[..n]);
      assert rs == rs[..n] + [rs[n]] && DropOf(rs[n]) == rs[n].drop;
      forall d: Drop {
        TallyMore(rs[..n], rs[n], DropOf, d);
      }
    }
  }

  /** One counter per outcome. */
  ghost predicate Counts(counts: map<Drop, nat>, rs: seq<Ruling>) {
    forall d: Drop :: d in counts && counts[d] == Tally(rs, DropOf, d)
  }

  const NO_DROPS: map<Drop, nat> :=
    map[Stolen := 0, NotNbrNode := 0, NotGlean := 0, Uncaptured := 0, Unpaired := 0, Throttled := 0, TurnedOff := 0]

  lemma CountNoDrops()
    ensures Counts(NO_DROPS, [])
  {
    forall d: Drop
      ensures d in NO_DROPS && NO_DROPS[d] == 0
    {
      match d
      case Stolen => case NotNbrNode => case NotGlean => case Uncaptured =>
      case Unpaired => case Throttled => case TurnedOff =>
    }
  }

  lemma CountOneDrop(counts: map<Drop, nat>, rs: seq<Ruling>, r: Ruling)
    requires Counts(counts, rs)
    ensures r.drop in counts && Counts(counts[r.drop := counts[r.drop] + 1], rs + [r])
  {
    assert (rs + [r])[..|rs|] == rs;
  }

  const WINDOW := 0.001

  /** The throttle's hash under one seed. */
  function Buckets(hash: (Key, nat) -> nat, seed: nat): Key -> nat { k => hash(k, seed) }

  class Throttle {
    const hash: (Key, nat) -> nat
    var bits: set<nat>
    var seed: nat
    var since: real

    /** The packets seen in the current window. */
    ghost var window: seq<Item>

    ghost predicate Valid()
      reads this
    {
      && (forall k :: 0 <= k < |window| ==> Ready(window[k].b))
      && bits == Walk(Buckets(hash, seed), {}, window).1
    }

    constructor (hash: (Key, nat) -> nat, seed: nat)
      ensures Valid() && this.hash == hash && window == []
    {
      this.hash, this.seed := hash, seed;
      bits, since, window := {}, 0.0, [];
    }

    /** Starts a new window, with a new seed and clear bits, when the old one is over. */
    method Seed(now: real, fresh_: nat)
      requires Valid()
      modifies this
      ensures Valid()
      ensures if now - old(since) > WINDOW
              then bits == {} && seed == fresh_ && since == now && window == []
              else bits == old(bits) && seed == old(seed) && since == old(since) && window == old(window)
    {
      if now - since > WINDOW {
        bits, seed, since, window := {}, fresh_, now, [];
      }
    }

    /** The node on a frame: one more stretch of the current window, or the first of a new one.
        `derefs` are the packets whose adjacency was read. */
    method Node(env: Env, bufs: array<Buffer>, now: real, fresh_: nat)
      returns (rs: seq<Ruling>, counts: map<Drop, nat>, ghost derefs: set<nat>)
      requires Valid() && forall k :: 0 <= k < bufs.Length ==> Ready(bufs[k])
      modifies this, bufs
      ensures Valid()
      ensures seed == if now - old(since) > 0.001 then fresh_ else old(seed)
      ensures var start := if now - old(since) > 0.001 then [] else old(window);
              && window == start + Items(env, old(bufs[..]))
              && Walk(Buckets(hash, seed), {}, window).0[|start|..] == rs
      ensures |rs| == bufs.Length && forall k :: 0 <= k < bufs.Length ==> bufs[k] == rs[k].b
      ensures Counts(counts, rs)
      ensures forall k :: k in derefs ==>
                k < bufs.Length && env.punt && FromNbr(env, old(bufs[k])) && old(bufs[k]).adj in env.adjacencies
    {
      hide Step, Ready, Walk, FromNbr, Counts;
      Seed(now, fresh_);
      ghost var start, earlier := bits, window;
      var bucket := Buckets(hash, seed);
      ghost var xs := Items(env, bufs[..]);
      rs, derefs := [], {};
      counts := NO_DROPS;
      CountNoDrops();
      var i := 0;
      WalkNone(bucket, start);
      assert xs[..0] == [];
      while i < bufs.Length
        invariant i == |rs| <= bufs.Length && Counts(counts, rs)
        invariant (rs, bits) == Walk(bucket, start, xs[..i])
        invariant forall k :: 0 <= k < i ==> bufs[k] == rs[k].b
        invariant forall k :: i <= k < bufs.Length ==> bufs[k] == old(bufs[k])
        invariant forall k :: k in derefs ==>
                    k < i && env.punt && FromNbr(env, old(bufs[k])) && old(bufs[k]).adj in env.adjacencies
        modifies this`bits, bufs
      {
        ghost var deref;
        var r;
        WalkOne(bucket, start, xs, i);
        r, bits, deref := Rule(env, bucket, bits, bufs[i]);
        bufs[i] := r.b;
        CountOneDrop(counts, rs, r);
        counts := counts[r.drop := counts[r.drop] + 1];
        rs := rs + [r];
        derefs := if deref then derefs + {i} else derefs;
        i := i + 1;
      }
      assert xs[..i] == xs;
      WalkSplits(bucket, {}, earlier, xs);
      window := window + xs;
    }

    /** Over all frames of a window, no two packets with the same adjacency and ingress interface
        were redirected. */
    lemma WindowIsBounded(i: nat, j: nat)
      requires Valid() && i < j < |window|
      requires var rs := Walk(Buckets(hash, seed), {}, window).0; rs[i].drop == Stolen && rs[j].drop == Stolen
      ensures window[i].b.adj != window[j].b.adj || window[i].b.cookie.origRx != window[j].b.cookie.origRx
    {
      RateBound(Buckets(hash, seed), window, i, j);
    }
  }

  lemma WalkNone(bucket: Key -> nat, bits: set<nat>)
    ensures Walk(bucket, bits, []) == ([], bits)
  {
  }

  lemma {:induction false} WalkOne(bucket: Key -> nat, bits: set<nat>, xs: seq<Item>, i: nat)
    requires i < |xs| && forall k :: 0 <= k < |xs| ==> Ready(xs[k].b)
    ensures var (rs, bits') := Walk(bucket, bits, xs[..i]);
            var (r, bits'') := Step(bucket, bits', xs[i]);
            Walk(bucket, bits, xs[..i + 1]) == (rs + [r], bits'')
  {
    assert xs[..i + 1][..i] == xs[..i];
  }
}
