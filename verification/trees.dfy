/**
 * Nested PHP arrays whose leaves are all of one kind: the normalized
 * submission (leaves are uploaded files) and the result of a move (leaves
 * are result records). A node's children keep PHP's array order.
 */
module Trees {
  import opened Php

  datatype Tree<L> = Leaf(item: L) | Node(children: seq<(Key, Tree<L>)>)

  /** Concatenation of a sequence of sequences. */
  function Flatten<L>(ss: seq<seq<L>>): (r: seq<L>)
  {
    if |ss| == 0 then [] else ss[0] + Flatten(ss[1..])
  }

  lemma {:induction false} FlattenAppend<L>(a: seq<seq<L>>, b: seq<seq<L>>)
    ensures Flatten(a + b) == Flatten(a) + Flatten(b)
  {
    if |a| == 0 {
      assert a + b == b;
    } else {
      assert (a + b)[1..] == a[1..] + b;
      FlattenAppend(a[1..], b);
    }
  }

  /** The leaves in depth-first order: the order in which a recursive
      iteration over the nested arrays visits them. */
  function Leaves<L>(t: Tree<L>): seq<L> {
    match t
    case Leaf(x) => [x]
    case Node(cs) => Flatten(seq(|cs|, i requires 0 <= i < |cs| => Leaves(cs[i].1)))
  }

  /** The leaves of a node are those of its first child, then the rest. */
  lemma LeavesCons<L>(x: (Key, Tree<L>), rest: seq<(Key, Tree<L>)>)
    ensures Leaves(Node([x] + rest)) == Leaves(x.1) + Leaves(Node(rest))
  {
    var cs := [x] + rest;
    var ss := seq(|cs|, i requires 0 <= i < |cs| => Leaves(cs[i].1));
    var tail := seq(|rest|, i requires 0 <= i < |rest| => Leaves(rest[i].1));
    assert ss == [Leaves(x.1)] + tail;
    assert ss[1..] == tail;
  }

  /** The leaves of the children from position i on. */
  lemma LeavesSuffix<L>(cs: seq<(Key, Tree<L>)>, i: nat)
    requires i < |cs|
    ensures Leaves(Node(cs[i..])) == Leaves(cs[i].1) + Leaves(Node(cs[i + 1..]))
  {
    assert cs[i..] == [cs[i]] + cs[i + 1..];
    LeavesCons(cs[i], cs[i + 1..]);
  }

  /** The shape of a tree: its keys and nesting with the leaves forgotten. */
  function Erase<L>(t: Tree<L>): Tree<()> {
    match t
    case Leaf(_) => Leaf(())
    case Node(cs) => Node(seq(|cs|, i requires 0 <= i < |cs| => (cs[i].0, Erase(cs[i].1))))
  }

  /** Two arrays with the same keys in the same order, entry by entry of
      the same shape. */
  predicate Aligned<A, B>(a: seq<(Key, Tree<A>)>, b: seq<(Key, Tree<B>)>) {
    && |a| == |b|
    && forall i :: 0 <= i < |a| ==> a[i].0 == b[i].0 && Erase(a[i].1) == Erase(b[i].1)
  }

  lemma AlignedCons<A, B>(x: (Key, Tree<A>), y: (Key, Tree<B>), a: seq<(Key, Tree<A>)>, b: seq<(Key, Tree<B>)>)
    requires x.0 == y.0 && Erase(x.1) == Erase(y.1) && Aligned(a, b)
    ensures Aligned([x] + a, [y] + b)
  {
    assert forall i :: 1 <= i < |a| + 1 ==> ([x] + a)[i] == a[i - 1] && ([y] + b)[i] == b[i - 1];
  }

  lemma SameShape<A, B>(a: seq<(Key, Tree<A>)>, b: seq<(Key, Tree<B>)>)
    requires Aligned(a, b)
    ensures Erase(Node(a)) == Erase(Node(b))
  {
  }

  /** Every array in the tree has distinct keys, as every PHP array does. */
  predicate WellKeyed<L>(t: Tree<L>) {
    match t
    case Leaf(_) => true
    case Node(cs) => DistinctKeys(cs) && forall i :: 0 <= i < |cs| ==> WellKeyed(cs[i].1)
  }
}
