/**
 The VPP configuration of vppcfgd: nested dictionaries with text at the leaves, and the
 recursive update that merges a new configuration into the shared template.  A dictionary
 is its entries in insertion order.
 */
module ConfigTree {
  import opened Basics

  datatype Tree = Leaf(text: string) | Dict(entries: Entries)

  datatype Entries = Nil | Cons(key: string, val: Tree, rest: Entries)

  function Get(d: Entries, k: string): Option<Tree> {
    match d
    case Nil => None
    case Cons(key, val, rest) => if key == k then Some(val) else Get(rest, k)
  }

  /** Assignment: in place if the key is there, else at the end. */
  function Set(d: Entries, k: string, v: Tree): Entries {
    match d
    case Nil => Cons(k, v, Nil)
    case Cons(key, val, rest) => if key == k then Cons(k, v, rest) else Cons(key, val, Set(rest, k, v))
  }

  /** Keys are unique, at every level. */
  predicate ValidDict(d: Entries) {
    match d
    case Nil => true
    case Cons(key, val, rest) => Get(rest, key) == None && ValidTree(val) && ValidDict(rest)
  }

  predicate ValidTree(t: Tree) { t.Leaf? || ValidDict(t.entries) }

  /** An update ends, or raises a TypeError; either way it leaves the dictionary as `d`. */
  datatype Outcome = Done(d: Entries) | Raised(d: Entries)

  /** One entry of an update. */
  function Assign(k: string, v: Tree, output: Entries): Outcome
    decreases v
  {
    if v.Leaf? || Get(output, k) == None then Done(Set(output, k, v))
    else match Get(output, k).value
      case Leaf(_) => if v.entries == Nil then Done(output) else Raised(output)
      case Dict(before) =>
        match Merge(v.entries, before)
        case Done(after) => Done(Set(output, k, Dict(after)))
        case Raised(after) => Raised(Set(output, k, Dict(after)))
  }

  function Merge(input: Entries, output: Entries): Outcome
    decreases input
  {
    match input
    case Nil => Done(output)
    case Cons(k, v, rest) =>
      match Assign(k, v, output)
      case Done(d) => Merge(rest, d)
      case Raised(d) => Raised(d)
  }

  /** The update loop, recursing into nested dictionaries. */
  method DeepUpdate(input: Entries, output: Entries) returns (r: Outcome)
    ensures r == Merge(input, output)
    decreases input
  {
    var todo, out := input, output;
    while todo.Cons?
      invariant todo == input || todo < input
      invariant Merge(todo, out) == Merge(input, output)
      decreases todo
    {
      var k, v := todo.key, todo.val;
      var there := Get(out, k);
      if there.Some? {
        if v.Dict? {
          if there.value.Leaf? {
            if v.entries.Cons? {
              return Raised(out);
            }
          } else {
            var sub := DeepUpdate(v.entries, there.value.entries);
            out := Set(out, k, Dict(sub.d));
            if sub.Raised? {
              return Raised(out);
            }
          }
        } else {
          out := Set(out, k, v);
        }
      } else {
        out := Set(out, k, v);
      }
      todo := todo.rest;
    }
    return Done(out);
  }

  // ----- What a path holds -----

  /** The text at a path, if there is a leaf there. */
  function Value(d: Entries, path: seq<string>): Option<string>
    requires path != []
    decreases |path|
  {
    match Get(d, path[0])
    case None => None
    case Some(Leaf(text)) => if |path| == 1 then Some(text) else None
    case Some(Dict(sub)) => if |path| == 1 then None else Value(sub, path[1..])
  }

  /** The dictionary has a leaf at the path or above it. */
  predicate Decides(d: Entries, path: seq<string>)
    requires path != []
    decreases |path|
  {
    match Get(d, path[0])
    case None => false
    case Some(Leaf(_)) => true
    case Some(Dict(sub)) => |path| > 1 && Decides(sub, path[1..])
  }

  lemma {:induction false} GetOfSet(d: Entries, k: string, v: Tree, j: string)
    ensures Get(Set(d, k, v), j) == if j == k then Some(v) else Get(d, j)
  {
    if d.Cons? {
      GetOfSet(d.rest, k, v, j);
    }
  }

  lemma {:induction false} UndecidedHasNoValue(d: Entries, path: seq<string>)
    requires path != [] && !Decides(d, path)
    ensures Value(d, path) == None
    decreases |path|
  {
    match Get(d, path[0])
    case Some(Dict(sub)) => if |path| > 1 { UndecidedHasNoValue(sub, path[1..]); }
    case _ =>
  }

  /** One entry leaves the other keys alone. */
  lemma AssignKeepsOthers(k: string, v: Tree, output: Entries, j: string)
    requires j != k
    ensures Get(Assign(k, v, output).d, j) == Get(output, j)
  {
    forall t: Tree {
      GetOfSet(output, k, t, j);
    }
  }

  /** An update does not touch a key it does not name. */
  lemma {:induction false} MergeKeepsOthers(input: Entries, output: Entries, k: string)
    requires Get(input, k) == None
    ensures Get(Merge(input, output).d, k) == Get(output, k)
    decreases input
  {
    if input.Cons? {
      AssignKeepsOthers(input.key, input.val, output, k);
      if Assign(input.key, input.val, output).Done? {
        MergeKeepsOthers(input.rest, Assign(input.key, input.val, output).d, k);
      }
    }
  }

  /** After an update that ends, every path holds what the update says where the update decides
      it, and what it held before where it does not. */
  lemma {:induction false} MergeLaw(input: Entries, output: Entries, path: seq<string>)
    requires path != [] && ValidDict(input) && Merge(input, output).Done?
    ensures Value(Merge(input, output).d, path)
         == if Decides(input, path) then Value(input, path) else Value(output, path)
    decreases input
  {
    if input.Cons? {
      var k, v := input.key, input.val;
      var next := Assign(k, v, output).d;
      AssignLaw(k, v, output, path);
      MergeLaw(input.rest, next, path);
      if path[0] != k {
        AssignKeepsOthers(k, v, output, path[0]);
      }
    }
  }

  lemma {:induction false} AssignLaw(k: string, v: Tree, output: Entries, path: seq<string>)
    requires path != [] && ValidTree(v) && Assign(k, v, output).Done?
    ensures var entry := Cons(k, v, Nil);
            Value(Assign(k, v, output).d, path)
            == if Decides(entry, path) then Value(entry, path) else Value(output, path)
    decreases v
  {
    assert Get(Nil, path[0]) == None;
    if path[0] != k {
      AssignKeepsOthers(k, v, output, path[0]);
    } else {
      forall t: Tree {
        GetOfSet(output, k, t, k);
      }
      if v.Dict? && |path| > 1 {
        match Get(output, k)
        case Some(Dict(before)) => MergeLaw(v.entries, before, path[1..]);
        case None =>
          if !Decides(v.entries, path[1..]) {
            UndecidedHasNoValue(v.entries, path[1..]);
          }
        case _ =>
      }
    }
  }

  // ----- Runs of updates on the shared template -----

  predicate AllEnd(template: Entries, updates: seq<Entries>) {
    updates == [] || (
      && AllEnd(template, updates[..|updates| - 1])
      && Merge(updates[|updates| - 1], After(template, updates[..|updates| - 1])).Done?)
  }

  function After(template: Entries, updates: seq<Entries>): Entries {
    if updates == [] then template
    else Merge(updates[|updates| - 1], After(template, updates[..|updates| - 1])).d
  }

  /** The last update that decides a path, or -1. */
  function LastDecider(updates: seq<Entries>, path: seq<string>): (j: int)
    requires path != []
    ensures -1 <= j < |updates|
    ensures j >= 0 ==> Decides(updates[j], path)
    ensures forall k :: j < k < |updates| ==> !Decides(updates[k], path)
  {
    if updates == [] then -1
    else if Decides(updates[|updates| - 1], path) then |updates| - 1
    else LastDecider(updates[..|updates| - 1], path)
  }

  /** Each path holds what the last update that decides it says, else what the template says. */
  lemma {:induction false} LastUpdateWins(template: Entries, updates: seq<Entries>, path: seq<string>)
    requires path != [] && AllEnd(template, updates)
    requires forall k :: 0 <= k < |updates| ==> ValidDict(updates[k])
    ensures var j := LastDecider(updates, path);
            Value(After(template, updates), path) == Value(if j >= 0 then updates[j] else template, path)
  {
    if updates != [] {
      var n := |updates| - 1;
      LastUpdateWins(template, updates[..n], path);
      MergeLaw(updates[n], After(template, updates[..n]), path);
    }
  }

  // ----- Idempotence -----

  /** The dictionary has nothing left to take from the update. */
  predicate Absorbed(input: Entries, d: Entries)
    decreases input
  {
    match input
    case Nil => true
    case Cons(k, v, rest) => AbsorbedAt(k, v, d) && Absorbed(rest, d)
  }

  predicate AbsorbedAt(k: string, v: Tree, d: Entries)
    decreases v
  {
    match Get(d, k)
    case None => false
    case Some(Leaf(text)) => v == Leaf(text) || v == Dict(Nil)
    case Some(Dict(sub)) => v.Dict? && Absorbed(v.entries, sub)
  }

  lemma {:induction false} SetSame(d: Entries, k: string)
    requires Get(d, k).Some?
    ensures Set(d, k, Get(d, k).value) == d
  {
    if d.key != k {
      SetSame(d.rest, k);
    }
  }

  lemma {:induction false} AbsorbedIsFixed(input: Entries, d: Entries)
    requires Absorbed(input, d)
    ensures Merge(input, d) == Done(d)
    decreases input
  {
    if input.Cons? {
      AbsorbedAtIsFixed(input.key, input.val, d);
      AbsorbedIsFixed(input.rest, d);
    }
  }

  lemma {:induction false} AbsorbedAtIsFixed(k: string, v: Tree, d: Entries)
    requires AbsorbedAt(k, v, d)
    ensures Assign(k, v, d) == Done(d)
    decreases v
  {
    SetSame(d, k);
    if v.Dict? && Get(d, k).value.Dict? {
      AbsorbedIsFixed(v.entries, Get(d, k).value.entries);
    }
  }

  lemma {:induction false} AbsorbsItself(d: Entries, rest: Entries)
    requires ValidDict(d) && ValidDict(rest)
    requires forall k :: Get(rest, k).Some? ==> Get(d, k) == Get(rest, k)
    ensures Absorbed(rest, d)
    decreases rest
  {
    if rest.Cons? {
      assert Get(rest, rest.key) == Some(rest.val);
      if rest.val.Dict? {
        AbsorbsItself(rest.val.entries, rest.val.entries);
      }
      forall k | Get(rest.rest, k).Some?
        ensures Get(d, k) == Get(rest.rest, k)
      {
        assert Get(rest, k) == Get(rest.rest, k);
      }
      AbsorbsItself(d, rest.rest);
    }
  }

  /** An entry is absorbed at once, and later entries of other keys keep it so. */
  lemma {:induction false} AssignAbsorbs(k: string, v: Tree, output: Entries)
    requires ValidTree(v) && Assign(k, v, output).Done?
    ensures AbsorbedAt(k, v, Assign(k, v, output).d)
    decreases v
  {
    forall t: Tree {
      GetOfSet(output, k, t, k);
    }
    if v.Dict? {
      match Get(output, k)
      case None => AbsorbsItself(v.entries, v.entries);
      case Some(Leaf(_)) =>
      case Some(Dict(before)) => MergeAbsorbs(v.entries, before);
    }
  }

  lemma {:induction false} MergeAbsorbs(input: Entries, output: Entries)
    requires ValidDict(input) && Merge(input, output).Done?
    ensures Absorbed(input, Merge(input, output).d)
    decreases input
  {
    if input.Cons? {
      var k, v := input.key, input.val;
      var next := Assign(k, v, output).d;
      AssignAbsorbs(k, v, output);
      MergeAbsorbs(input.rest, next);
      MergeKeepsOthers(input.rest, next, k);
    }
  }

  /** Repeating an update that ended changes nothing, not even the order of the entries. */
  lemma MergeIsIdempotent(input: Entries, output: Entries)
    requires ValidDict(input) && Merge(input, output).Done?
    ensures Merge(input, Merge(input, output).d) == Merge(input, output)
  {
    MergeAbsorbs(input, output);
    AbsorbedIsFixed(input, Merge(input, output).d);
  }

  // ----- Order -----

  function Keys(d: Entries): seq<string> { if d == Nil then [] else [d.key] + Keys(d.rest) }

  /** The keys that are not there yet, in order, each once. */
  function Unknown(keys: seq<string>, known: seq<string>): seq<string> {
    if keys == [] then []
    else if keys[0] in known then Unknown(keys[1..], known)
    else [keys[0]] + Unknown(keys[1..], known + [keys[0]])
  }

  lemma UnknownOfMore(k: string, keys: seq<string>, known: seq<string>)
    ensures Unknown([k] + keys, known)
         == if k in known then Unknown(keys, known) else [k] + Unknown(keys, known + [k])
  {
    assert ([k] + keys)[1..] == keys;
  }

  lemma {:induction false} KnownKeys(d: Entries, k: string)
    ensures k in Keys(d) <==> Get(d, k) != None
  {
    if d.Cons? {
      KnownKeys(d.rest, k);
    }
  }

  /** Assigning to a key that is there keeps the order of the keys; a new key goes last. */
  lemma {:induction false} KeysOfSet(d: Entries, k: string, v: Tree)
    ensures Keys(Set(d, k, v)) == if k in Keys(d) then Keys(d) else Keys(d) + [k]
  {
    if d.Cons? && d.key != k {
      KeysOfSet(d.rest, k, v);
      assert [d.key] + (Keys(d.rest) + [k]) == [d.key] + Keys(d.rest) + [k];
    }
  }

  lemma KeysOfAssign(k: string, v: Tree, output: Entries)
    ensures Keys(Assign(k, v, output).d) == if k in Keys(output) then Keys(output) else Keys(output) + [k]
  {
    KnownKeys(output, k);
    forall t: Tree {
      KeysOfSet(output, k, t);
    }
  }

  /** After an update that ends, the keys are those that were there, in their order, followed by
      the new ones in the order of the update. */
  lemma {:induction false} MergeKeepsOrder(input: Entries, output: Entries)
    requires Merge(input, output).Done?
    ensures Keys(Merge(input, output).d) == Keys(output) + Unknown(Keys(input), Keys(output))
    decreases input
  {
    if input == Nil {
      assert Keys(output) + [] == Keys(output);
    } else {
      var next := Assign(input.key, input.val, output).d;
      KeysOfAssign(input.key, input.val, output);
      MergeKeepsOrder(input.rest, next);
      hide Unknown, Assign, Merge;
      assert Keys(input) == [input.key] + Keys(input.rest);
      OneMoreKey(input.key, Keys(input.rest), Keys(output), Keys(next));
    }
  }

  lemma OneMoreKey(k: string, keys: seq<string>, known: seq<string>, known': seq<string>)
    requires known' == if k in known then known else known + [k]
    ensures known' + Unknown(keys, known') == known + Unknown([k] + keys, known)
  {
    UnknownOfMore(k, keys, known);
    hide Unknown;
    assert known + [k] + Unknown(keys, known + [k]) == known + ([k] + Unknown(keys, known + [k]));
  }

  /** A dictionary of the update that meets a dictionary is merged into it, so the laws of this
      module hold below it as well. */
  lemma {:induction false} MergeGoesBelow(input: Entries, output: Entries, k: string)
    requires ValidDict(input) && Merge(input, output).Done?
    requires Get(input, k).Some? && Get(input, k).value.Dict? && Get(output, k).Some? && Get(output, k).value.Dict?
    ensures var below := Merge(Get(input, k).value.entries, Get(output, k).value.entries);
            below.Done? && Get(Merge(input, output).d, k) == Some(Dict(below.d))
    decreases input
  {
    var next := Assign(input.key, input.val, output).d;
    if input.key == k {
      forall t: Tree {
        GetOfSet(output, k, t, k);
      }
      MergeKeepsOthers(input.rest, next, k);
    } else {
      AssignKeepsOthers(input.key, input.val, output, k);
      MergeGoesBelow(input.rest, next, k);
    }
  }

  function Size(d: Entries): nat { if d == Nil then 0 else 1 + Size(d.rest) }

  /** The first `n` entries. */
  function First(d: Entries, n: nat): Entries
    requires n <= Size(d)
  {
    if n == 0 then Nil else Cons(d.key, d.val, First(d.rest, n - 1))
  }

  function At(d: Entries, n: nat): Entries
    requires n < Size(d)
    ensures At(d, n).Cons?
  {
    if n == 0 then d else At(d.rest, n - 1)
  }

  /** What a TypeError leaves behind: the entries before the offending one are merged.  That one is
      a non-empty dictionary which met text and changed nothing, or met a dictionary and was
      merged up to a TypeError below. */
  lemma {:induction false} RaisedLeaves(input: Entries, output: Entries) returns (n: nat)
    requires ValidDict(input) && Merge(input, output).Raised?
    ensures n < Size(input) && Merge(First(input, n), output).Done?
    ensures var entry, done := At(input, n), Merge(First(input, n), output).d;
            && entry.val.Dict? && Get(output, entry.key).Some?
            && match Get(output, entry.key).value
               case Leaf(_) => entry.val.entries != Nil && Merge(input, output).d == done
               case Dict(before) =>
                 var below := Merge(entry.val.entries, before);
                 below.Raised? && Merge(input, output).d == Set(done, entry.key, Dict(below.d))
    decreases input
  {
    var k, v := input.key, input.val;
    if Assign(k, v, output).Raised? {
      n := 0;
    } else {
      var next := Assign(k, v, output).d;
      var m := RaisedLeaves(input.rest, next);
      n := m + 1;
      KeyAt(input.rest, m);
      AssignKeepsOthers(k, v, output, At(input.rest, m).key);
    }
  }

  lemma {:induction false} KeyAt(d: Entries, n: nat)
    requires n < Size(d)
    ensures Get(d, At(d, n).key).Some?
  {
    if n > 0 {
      KeyAt(d.rest, n - 1);
    }
  }

  // ----- When an update ends -----

  /** No non-empty dictionary meets a leaf. */
  predicate Fits(input: Entries, output: Entries)
    decreases input
  {
    match input
    case Nil => true
    case Cons(k, v, rest) => FitsAt(v, Get(output, k)) && Fits(rest, output)
  }

  predicate FitsAt(v: Tree, there: Option<Tree>)
    decreases v
  {
    v.Leaf? || match there
      case None => true
      case Some(Leaf(_)) => v.entries == Nil
      case Some(Dict(sub)) => Fits(v.entries, sub)
  }

  lemma {:induction false} FitsByKeys(input: Entries, d: Entries, e: Entries)
    requires forall k :: Get(input, k).Some? ==> Get(d, k) == Get(e, k)
    ensures Fits(input, d) == Fits(input, e)
    decreases input
  {
    if input.Cons? {
      assert Get(input, input.key).Some?;
      forall k | Get(input.rest, k).Some?
        ensures Get(d, k) == Get(e, k)
      {
        assert Get(input, k).Some?;
      }
      FitsByKeys(input.rest, d, e);
    }
  }

  /** An update ends exactly when nowhere a non-empty dictionary meets a leaf. */
  lemma {:induction false} EndsIffFits(input: Entries, output: Entries)
    requires ValidDict(input)
    ensures Merge(input, output).Done? <==> Fits(input, output)
    decreases input
  {
    if input.Cons? {
      var k, v := input.key, input.val;
      if v.Dict? && Get(output, k).Some? && Get(output, k).value.Dict? {
        EndsIffFits(v.entries, Get(output, k).value.entries);
      }
      if Assign(k, v, output).Done? {
        var next := Assign(k, v, output).d;
        EndsIffFits(input.rest, next);
        forall j | Get(input.rest, j).Some?
          ensures Get(next, j) == Get(output, j)
        {
          AssignKeepsOthers(k, v, output, j);
        }
        FitsByKeys(input.rest, next, output);
      }
    }
  }
}
