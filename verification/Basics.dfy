/**
 Machine words, optional values and the index allocator shared by the models.

 Bytes and words are bounded integers.  The all-ones word, written ~0 in VPP, marks
 "no index".
 */
module Basics {

  type byte = b: int | 0 <= b < 0x100
  type u16 = w: int | 0 <= w < 0x1_0000
  type u32 = w: int | 0 <= w < 0x1_0000_0000

  /** An integer cut to an unsigned word. */
  function U32(x: int): (w: u32)
    ensures 0 <= x < 0x1_0000_0000 ==> w == x
  {
    x % 0x1_0000_0000
  }

  const NONE: u32 := 0xFFFF_FFFF

  datatype Option<+T> = None | Some(value: T)

  /** The four bytes of a word as they lie in memory on a little-endian host. */
  function Word(w: u32): seq<byte> {
    [w % 0x100, w / 0x100 % 0x100, w / 0x1_0000 % 0x100, w / 0x100_0000]
  }

  /** The word stored in four bytes of memory on a little-endian host. */
  function Load32(b: seq<byte>): u32
    requires |b| == 4
  {
    b[0] as int + 0x100 * b[1] as int + 0x1_0000 * b[2] as int + 0x100_0000 * b[3] as int
  }

  lemma LoadOfWord(w: u32)
    ensures |Word(w)| == 4 && Load32(Word(w)) == w
  {
    var hi := w / 0x100;
    var top := hi / 0x100;
    assert w == 0x100 * hi + w % 0x100 && hi == 0x100 * top + hi % 0x100;
    assert w / 0x1_0000 == top && w / 0x100_0000 == top / 0x100;
    assert top == 0x100 * (top / 0x100) + top % 0x100;
  }

  // Enable counts of a feature, by interface.

  function Count(m: map<nat, int>, i: nat): int { if i in m then m[i] else 0 }

  function Added(m: map<nat, int>, i: nat, d: int): map<nat, int> { m[i := Count(m, i) + d] }

  /** How many elements are of kind `o`. */
  function Tally<T, O(==)>(xs: seq<T>, kind: T -> O, o: O): nat {
    if xs == [] then 0
    else Tally(xs[..|xs| - 1], kind, o) + if kind(xs[|xs| - 1]) == o then 1 else 0
  }

  lemma TallyNone<T, O>(kind: T -> O, o: O)
    ensures Tally([], kind, o) == 0
  {
  }

  lemma TallyMore<T, O>(xs: seq<T>, x: T, kind: T -> O, o: O)
    ensures Tally(xs + [x], kind, o) == Tally(xs, kind, o) + if kind(x) == o then 1 else 0
  {
    assert (xs + [x])[..|xs|] == xs;
  }

  /** A free index: VPP pools promise no more than that it is not in use.  A pool only
      grows when it is full, so the index never exceeds the number in use. */
  method FreeIndex(used: set<nat>) returns (i: nat)
    ensures i !in used
    ensures i <= |used|
  {
    i := 0;
    ghost var below: set<nat> := {};
    while i in used
      invariant |below| == i
      invariant forall k :: k in below ==> k < i
      invariant below <= used
      decreases used - below
    {
      below := below + {i};
      i := i + 1;
    }
    Subset(below, used);
  }

  lemma Subset(a: set<nat>, b: set<nat>)
    requires a <= b
    ensures |a| <= |b|
  {
    if a != {} {
      var x :| x in a;
      Subset(a - {x}, b - {x});
    }
  }
}
