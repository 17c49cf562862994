/** In-place flattening of a TOML array: nested arrays are replaced by their leaves, depth first,
    while the vector being walked grows under the loop. */
module TomlFlatten {
  import opened Prelude

  /** A TOML node; everything that is not an array is a leaf here. */
  datatype Node = Leaf(value: int) | Array(elems: seq<Node>)

  /** A unique pointer in the vector: empty once its node has been moved out. */
  datatype Slot = Null | Held(node: Node)

  /** The leaves in depth-first order. */
  function Leaves(ns: seq<Node>): seq<Node>
    decreases ns
  {
    if ns == [] then [] else LeavesOf(ns[0]) + Leaves(ns[1..])
  }

  function LeavesOf(n: Node): seq<Node>
    decreases n
  {
    match n
    case Leaf(_) => [n]
    case Array(es) => Leaves(es)
  }

  function Wrap(ns: seq<Node>): (s: seq<Slot>)
    ensures |s| == |ns| && forall i :: 0 <= i < |s| ==> s[i] == Held(ns[i])
  {
    seq(|ns|, i requires 0 <= i < |ns| => Held(ns[i]))
  }

  function Nulls(n: nat): (s: seq<Slot>)
    ensures |s| == n && forall i :: 0 <= i < n ==> s[i] == Null
  {
    seq(n, _ => Null)
  }

  lemma {:induction false} LeavesAppend(a: seq<Node>, b: seq<Node>)
    ensures Leaves(a + b) == Leaves(a) + Leaves(b)
  {
    if a == [] {
      assert a + b == b;
    } else {
      assert (a + b)[1..] == a[1..] + b;
      LeavesAppend(a[1..], b);
    }
  }

  lemma LeavesOne(n: Node)
    ensures Leaves([n]) == LeavesOf(n)
  {
    assert [n][1..] == [];
    assert LeavesOf(n) + [] == LeavesOf(n);
  }

  /** Putting the elements of a nested array in its place changes nothing: together with `LeavesOfLeaves` this
      determines the leaves of every array, in number and order. */
  lemma SpliceKeepsLeaves(a: seq<Node>, es: seq<Node>, b: seq<Node>)
    ensures Leaves(a + [Array(es)] + b) == Leaves(a + es + b)
  {
    LeavesAppend(a + [Array(es)], b);
    LeavesAppend(a, [Array(es)]);
    LeavesOne(Array(es));
    LeavesAppend(a + es, b);
    LeavesAppend(a, es);
  }

  predicate AllLeaves(ns: seq<Node>) { forall i :: 0 <= i < |ns| ==> ns[i].Leaf? }

  lemma {:induction false} LeavesOfLeaves(ns: seq<Node>)
    requires AllLeaves(ns)
    ensures Leaves(ns) == ns
  {
    if ns != [] {
      LeavesOfLeaves(ns[1..]);
    }
  }

  lemma {:induction false} LeavesAreLeaves(ns: seq<Node>)
    ensures AllLeaves(Leaves(ns))
    decreases ns
  {
    if ns != [] {
      LeavesAreLeaves(ns[1..]);
      if ns[0].Array? {
        LeavesAreLeaves(ns[0].elems);
      }
    }
  }

  method TotalLeafCount(ns: seq<Node>) returns (leaves: nat)
    ensures leaves == |Leaves(ns)|
    decreases ns
  {
    leaves := 0;
    var i := 0;
    while i < |ns|
      invariant i <= |ns| && leaves == |Leaves(ns[..i])|
    {
      var n := 1;
      if ns[i].Array? {
        n := TotalLeafCount(ns[i].elems);
      }
      assert ns[..i + 1] == ns[..i] + [ns[i]];
      LeavesAppend(ns[..i], [ns[i]]);
      LeavesOne(ns[i]);
      leaves := leaves + n;
      i := i + 1;
    }
    assert ns[..|ns|] == ns;
  }

  class TomlArray {
    var elems: seq<Slot>

    constructor (ns: seq<Node>)
      ensures elems == Wrap(ns)
    {
      elems := Wrap(ns);
    }

    /** Opens `count` empty slots at `idx` by moving the tail, last element first. */
    method PreinsertionResize(idx: nat, count: nat)
      requires idx <= |elems| && count >= 1
      modifies this
      ensures elems == old(elems[..idx]) + Nulls(count) + old(elems[idx..])
    {
      var oldSize := |elems|;
      var newSize := oldSize + count;
      elems := elems + Nulls(count);
      if idx != oldSize {
        var left, right := oldSize, newSize - 1;
        while left > idx
          invariant idx <= left <= oldSize && right == left + count - 1 && |elems| == newSize
          invariant forall k :: 0 <= k < left ==> elems[k] == old(elems)[k]
          invariant forall k :: left <= k < left + count ==> elems[k] == Null
          invariant forall k :: left + count <= k < newSize ==> elems[k] == old(elems)[k - count]
        {
          left := left - 1;
          elems := elems[right := elems[left]];
          elems := elems[left := Null];
          right := right - 1;
        }
      }
    }

    /** Moves the leaves of `child` into the slots from `dest` on. */
    method FlattenChild(child: seq<Node>, dest: nat) returns (end: nat)
      requires dest + |Leaves(child)| <= |elems|
      modifies this
      ensures end == dest + |Leaves(child)|
      ensures elems == Filled(old(elems), dest, Leaves(child))
      decreases child
    {
      hide Leaves, LeavesOf, Filled, Wrap;
      NothingFilled(elems, dest);
      end := dest;
      var i := 0;
      assert child[..0] == [] && child[0..] == child;
      while i < |child|
        invariant i <= |child| && end == dest + |Leaves(child[..i])| && |elems| == old(|elems|)
        invariant |Leaves(child)| == |Leaves(child[..i])| + |Leaves(child[i..])|
        invariant elems == Filled(old(elems), dest, Leaves(child[..i]))
      {
        Progress(child, i);
        FilledOn(old(elems), dest, Leaves(child[..i]), LeavesOf(child[i]));
        if child[i].Array? {
          var arr := child[i].elems;
          if arr != [] {
            end := FlattenChild(arr, end);
          } else {
            NothingFilled(elems, end);
          }
        } else {
          OneFilled(elems, end, child[i]);
          elems := elems[end := Held(child[i])];
          end := end + 1;
        }
        i := i + 1;
      }
      assert child[..|child|] == child;
    }

    /** Erases arrays without leaves, last element first; says whether an array is left. */
    method DropHollow(ghost ns: seq<Node>) returns (requiresFlattening: bool, ghost kept: seq<Node>)
      requires elems == Wrap(ns)
      modifies this
      ensures elems == Wrap(kept) && NoHollow(kept) && Leaves(kept) == Leaves(ns)
      ensures !requiresFlattening ==> AllLeaves(kept)
    {
      hide Leaves, LeavesOf, NoHollow, AllLeaves;
      NoneLeft();
      requiresFlattening := false;
      kept := ns;
      var i: nat := |elems|;
      assert kept[i..] == [];
      while i > 0
        invariant i <= |kept| && elems == Wrap(kept) && kept[..i] == ns[..i]
        invariant i <= |ns|
        invariant NoHollow(kept[i..]) && Leaves(kept) == Leaves(ns)
        invariant !requiresFlattening ==> AllLeaves(kept[i..])
      {
        i := i - 1;
        var node := elems[i].node;
        StepDown(kept, i);
        if node.Leaf? {
          continue;
        }
        var leafCount := TotalLeafCount(node.elems);
        if leafCount > 0 {
          requiresFlattening := true;
        } else {
          HollowErased(kept, i);
          Erased(kept, i);
          elems := elems[..i] + elems[i + 1..];
          kept := kept[..i] + kept[i + 1..];
        }
      }
      assert kept[0..] == kept;
    }

    /** Replaces the array held at `i` by its leaves. */
    method ExpandAt(i: nat, arr: seq<Node>, ghost done: seq<Node>, ghost tail: seq<Node>) returns (end: nat)
      requires i == |done| && Leaves(arr) != []
      requires elems == Wrap(done) + [Held(Array(arr))] + Wrap(tail)
      modifies this
      ensures end == i + |Leaves(arr)|
      ensures elems == Wrap(done + Leaves(arr)) + Wrap(tail)
    {
      hide Leaves;
      var leafCount := TotalLeafCount(arr);
      Opened(Wrap(done), Held(Array(arr)), Wrap(tail), leafCount);
      WrapBoth(done, Leaves(arr));
      elems := elems[i := Null];
      if leafCount > 1 {
        PreinsertionResize(i + 1, leafCount - 1);
      }
      end := FlattenChild(arr, i);
    }

    method Flatten(ghost ns: seq<Node>)
      requires elems == Wrap(ns)
      modifies this
      ensures elems == Wrap(Leaves(ns))
    {
      if elems == [] {
        return;
      }
      hide Leaves, LeavesOf, NoHollow, AllLeaves;
      var requiresFlattening;
      ghost var kept;
      requiresFlattening, kept := DropHollow(ns);
      if !requiresFlattening {
        LeavesOfLeaves(kept);
        return;
      }
      var i := 0;
      ghost var done: seq<Node>, rest := [], kept;
      assert [] + Leaves(kept) == Leaves(kept);
      while i < |elems|
        invariant i == |done| && elems == Wrap(done) + Wrap(rest)
        invariant done + Leaves(rest) == Leaves(ns) && NoHollow(rest)
        decreases |elems| - i
      {
        var node := elems[i].node;
        assert node == rest[0];
        ghost var tail := rest[1..];
        NextElement(done, rest);
        if node.Leaf? {
          done, rest := done + [node], tail;
          i := i + 1;
          continue;
        }
        i := ExpandAt(i, node.elems, done, tail);
        done, rest := done + Leaves(node.elems), tail;
      }
      NothingNext(done, rest);
    }
  }

  /** No array without leaves is among the elements. */
  ghost predicate NoHollow(ns: seq<Node>) {
    forall i :: 0 <= i < |ns| && ns[i].Array? ==> Leaves(ns[i].elems) != []
  }

  /** The vector while one element is opened up into `n` empty slots. */
  lemma {:induction false} Opened(a: seq<Slot>, x: Slot, b: seq<Slot>, n: nat)
    requires n >= 1
    ensures var start := (a + [x] + b)[|a| := Null];
            var open := a + Nulls(n) + b;
            && (n == 1 ==> start == open)
            && (n > 1 ==> start[..|a| + 1] + Nulls(n - 1) + start[|a| + 1..] == open)
            && open[..|a|] == a && open[|a| + n..] == b
  {
    var start := (a + [x] + b)[|a| := Null];
    assert start == a + [Null] + b;
    assert start[..|a| + 1] == a + [Null] && start[|a| + 1..] == b;
    assert [Null] + Nulls(n - 1) == Nulls(n);
    Assoc(a, [Null], Nulls(n - 1));
    if n == 1 {
      assert Nulls(n) == [Null];
    }
  }

  lemma WrapBoth(a: seq<Node>, b: seq<Node>)
    ensures Wrap(a + b) == Wrap(a) + Wrap(b)
  {
  }

  /** One element of what is still to be walked. */
  lemma {:induction false} NextElement(done: seq<Node>, rest: seq<Node>)
    requires rest != [] && NoHollow(rest)
    ensures var n, tail := rest[0], rest[1..];
            && NoHollow(tail)
            && Wrap(done) + Wrap(rest) == Wrap(done) + [Held(n)] + Wrap(tail)
            && (n.Leaf? ==>
                  && done + Leaves(rest) == done + [n] + Leaves(tail)
                  && Wrap(done) + Wrap(rest) == Wrap(done + [n]) + Wrap(tail))
            && (n.Array? ==>
                  Leaves(n.elems) != [] && done + Leaves(rest) == done + Leaves(n.elems) + Leaves(tail))
  {
    var n, tail := rest[0], rest[1..];
    assert Leaves(rest) == LeavesOf(n) + Leaves(tail);
    hide Leaves;
  }

  lemma NothingNext(done: seq<Node>, rest: seq<Node>)
    ensures rest == [] ==> done + Leaves(rest) == done && Wrap(done) + Wrap(rest) == Wrap(done)
  {
  }

  lemma NoneLeft()
    ensures NoHollow([]) && AllLeaves([])
  {
  }

  /** Walking down past element `i`. */
  lemma {:induction false} StepDown(ns: seq<Node>, i: nat)
    requires i < |ns| && NoHollow(ns[i + 1..])
    ensures ns[i].Leaf? || Leaves(ns[i].elems) != [] ==> NoHollow(ns[i..])
    ensures ns[i].Leaf? && AllLeaves(ns[i + 1..]) ==> AllLeaves(ns[i..])
  {
    hide Leaves;
    assert ns[i..] == [ns[i]] + ns[i + 1..];
  }

  lemma {:induction false} Erased(ns: seq<Node>, i: nat)
    requires i < |ns|
    ensures var t := ns[..i] + ns[i + 1..];
            && Wrap(t) == Wrap(ns)[..i] + Wrap(ns)[i + 1..]
            && t[..i] == ns[..i] && t[i..] == ns[i + 1..]
  {
  }

  lemma HollowErased(ns: seq<Node>, i: nat)
    requires i < |ns| && ns[i].Array? && Leaves(ns[i].elems) == []
    ensures Leaves(ns[..i] + ns[i + 1..]) == Leaves(ns)
  {
    assert ns == ns[..i] + ([ns[i]] + ns[i + 1..]);
    LeavesAppend(ns[..i], [ns[i]] + ns[i + 1..]);
    LeavesAppend([ns[i]], ns[i + 1..]);
    LeavesOne(ns[i]);
    LeavesAppend(ns[..i], ns[i + 1..]);
  }

  lemma Progress(child: seq<Node>, i: nat)
    requires i < |child|
    ensures Leaves(child[..i + 1]) == Leaves(child[..i]) + LeavesOf(child[i])
    ensures Leaves(child[i..]) == LeavesOf(child[i]) + Leaves(child[i + 1..])
    ensures LeavesOf(child[i]) == if child[i].Leaf? then [child[i]] else Leaves(child[i].elems)
  {
    assert child[..i + 1] == child[..i] + [child[i]];
    LeavesAppend(child[..i], [child[i]]);
    LeavesOne(child[i]);
    assert child[i..][1..] == child[i + 1..];
  }

  /** The vector with `ns` written over its slots from `dest` on. */
  function Filled(slots: seq<Slot>, dest: nat, ns: seq<Node>): (r: seq<Slot>)
    requires dest + |ns| <= |slots|
    ensures |r| == |slots|
  {
    slots[..dest] + Wrap(ns) + slots[dest + |ns|..]
  }

  lemma NothingFilled(slots: seq<Slot>, dest: nat)
    requires dest <= |slots|
    ensures Leaves([]) == [] && Filled(slots, dest, []) == slots
  {
    assert Wrap([]) == [];
  }

  lemma OneFilled(slots: seq<Slot>, dest: nat, n: Node)
    requires dest < |slots|
    ensures Filled(slots, dest, [n]) == slots[dest := Held(n)]
  {
    assert Wrap([n]) == [Held(n)];
  }

  lemma {:induction false} FilledOn(slots: seq<Slot>, dest: nat, was: seq<Node>, more: seq<Node>)
    requires dest + |was| + |more| <= |slots|
    ensures Filled(Filled(slots, dest, was), dest + |was|, more) == Filled(slots, dest, was + more)
  {
    var once := Filled(slots, dest, was);
    assert once[..dest + |was|] == slots[..dest] + Wrap(was);
    assert once[dest + |was| + |more|..] == slots[dest + |was| + |more|..];
    WrapBoth(was, more);
    Assoc(slots[..dest], Wrap(was), Wrap(more));
  }
}
