/** The timing queue of the scheduler: a skew heap of (round, item) entries.
    The pointer nodes are rebuilt in place by Merge; a ghost datatype tree
    mirrors each node's subtree and carries the heap's properties. */
module SkewHeap {

  /** The pure shape of a skew heap: the abstraction of a pointer subtree. */
  datatype Tree<T> = Leaf | Node(left: Tree<T>, priority: int, value: T, right: Tree<T>)

  function Size<T>(t: Tree<T>): nat
  {
    match t
    case Leaf => 0
    case Node(l, _, _, r) => 1 + Size(l) + Size(r)
  }

  /** The (priority, value) entries stored in `t`. */
  ghost function Contents<T>(t: Tree<T>): multiset<(int, T)>
  {
    match t
    case Leaf => multiset{}
    case Node(l, p, v, r) => multiset{(p, v)} + Contents(l) + Contents(r)
  }

  /** Heap order: no child carries a smaller priority than its parent. */
  ghost predicate IsHeap<T>(t: Tree<T>)
  {
    match t
    case Leaf => true
    case Node(l, p, _, r) =>
      && (l.Node? ==> p <= l.priority) && IsHeap(l)
      && (r.Node? ==> p <= r.priority) && IsHeap(r)
  }

  /** The skew-heap merge of the source, on values: the root with the smaller
      priority (the first one on a tie) stays on top, its right subtree is merged
      with the other heap, and its two children then trade places. */
  function MergeTrees<T>(t1: Tree<T>, t2: Tree<T>): Tree<T>
    decreases Size(t1) + Size(t2)
  {
    if t1.Leaf? then t2
    else if t2.Leaf? then t1
    else if t1.priority > t2.priority then
      Node(MergeTrees(t2.right, t1), t2.priority, t2.value, t2.left)
    else
      Node(MergeTrees(t1.right, t2), t1.priority, t1.value, t1.left)
  }

  /** The root of a merge is the root of one of the two heaps, the smaller one. */
  lemma MergeRoot<T>(t1: Tree<T>, t2: Tree<T>)
    requires t1.Node? && t2.Node?
    ensures MergeTrees(t1, t2).Node?
    ensures MergeTrees(t1, t2).priority == if t1.priority <= t2.priority then t1.priority else t2.priority
  {
  }

  /** Merging keeps every entry of both heaps, and nothing else. */
  lemma {:induction false} MergeContents<T>(t1: Tree<T>, t2: Tree<T>)
    ensures Contents(MergeTrees(t1, t2)) == Contents(t1) + Contents(t2)
    decreases Size(t1) + Size(t2)
  {
    if t1.Node? && t2.Node? {
      var (a, b) := if t1.priority > t2.priority then (t2, t1) else (t1, t2);
      MergeContents(a.right, b);
      assert MergeTrees(t1, t2) == Node(MergeTrees(a.right, b), a.priority, a.value, a.left);
      var top, l, r := multiset{(a.priority, a.value)}, Contents(a.left), Contents(a.right);
      assert Contents(a) == top + l + r;
      assert Contents(MergeTrees(t1, t2)) == top + (r + Contents(b)) + l;
    }
  }

  /** Merging two heaps gives a heap. */
  lemma {:induction false} MergeIsHeap<T>(t1: Tree<T>, t2: Tree<T>)
    requires IsHeap(t1) && IsHeap(t2)
    ensures IsHeap(MergeTrees(t1, t2))
    decreases Size(t1) + Size(t2)
  {
    if t1.Node? && t2.Node? {
      if t1.priority > t2.priority {
        MergeIsHeap(t2.right, t1);
        if t2.right.Node? { MergeRoot(t2.right, t1); }
      } else {
        MergeIsHeap(t1.right, t2);
        if t1.right.Node? { MergeRoot(t1.right, t2); }
      }
    }
  }

  /** The root of a heap carries the least priority of all its entries. */
  lemma {:induction false} RootIsMinimum<T>(t: Tree<T>, e: (int, T))
    requires IsHeap(t) && e in Contents(t)
    ensures t.priority <= e.0
  {
    var l, r := t.left, t.right;
    if e in Contents(l) {
      RootIsMinimum(l, e);
    } else if e in Contents(r) {
      RootIsMinimum(r, e);
    }
  }

  /** Merging a one-entry tree into a heap adds exactly that entry and leaves
      a heap. */
  lemma {:induction false} InsertContents<T>(t: Tree<T>, p: int, v: T)
    requires IsHeap(t)
    ensures IsHeap(MergeTrees(t, Node(Leaf, p, v, Leaf)))
    ensures Contents(MergeTrees(t, Node(Leaf, p, v, Leaf))) == Contents(t) + multiset{(p, v)}
  {
    var single := Node(Leaf, p, v, Leaf);
    MergeContents(t, single);
    MergeIsHeap(t, single);
    assert Contents(single) == multiset{(p, v)};
  }

  /** Removing the root of a heap by merging its subtrees takes out exactly the
      root entry, which is a least one, and leaves a heap. */
  lemma {:induction false} PopContents<T>(t: Tree<T>)
    requires t.Node? && IsHeap(t)
    ensures IsHeap(MergeTrees(t.left, t.right))
    ensures Contents(t) == Contents(MergeTrees(t.left, t.right)) + multiset{(t.priority, t.value)}
    ensures forall e | e in Contents(t) :: t.priority <= e.0
  {
    MergeContents(t.left, t.right);
    MergeIsHeap(t.left, t.right);
    forall e | e in Contents(t) ensures t.priority <= e.0 {
      RootIsMinimum(t, e);
    }
  }

  /** The item of every entry of `s`, in order. */
  function Values<T>(s: seq<(int, T)>): seq<T>
  {
    if s == [] then [] else Values(s[..|s| - 1]) + [s[|s| - 1].1]
  }

  /** Entries listed in non-decreasing priority. */
  ghost predicate Sorted<T>(s: seq<(int, T)>)
  {
    forall i, j :: 0 <= i < j < |s| ==> s[i].0 <= s[j].0
  }

  /** What PullFrom keeps while it pops from a queue that held `orig`: the
      popped entries and the queued ones `rest` together make up `orig`, the
      popped ones are sorted, none is later than `time`, and none is later than
      an entry still queued. */
  ghost predicate Pulled<T>(due: seq<(int, T)>, rest: multiset<(int, T)>, orig: multiset<(int, T)>, time: int)
  {
    && multiset(due) + rest == orig
    && Sorted(due)
    && (forall k :: 0 <= k < |due| ==> due[k].0 <= time)
    && (forall k, e :: 0 <= k < |due| && e in rest ==> due[k].0 <= e.0)
  }

  /** Popping a least entry that is not later than `time` keeps Pulled. */
  lemma PulledStep<T>(due: seq<(int, T)>, before: multiset<(int, T)>, after: multiset<(int, T)>,
                      orig: multiset<(int, T)>, entry: (int, T), time: int)
    requires Pulled(due, before, orig, time)
    requires before == after + multiset{entry} && entry.0 <= time
    requires forall e | e in before :: entry.0 <= e.0
    ensures Pulled(due + [entry], after, orig, time)
  {
    var due' := due + [entry];
    assert multiset(due') == multiset(due) + multiset{entry};
    forall k, e | 0 <= k < |due'| && e in after ensures due'[k].0 <= e.0 {
      assert e in before;
      if k < |due| {
        assert due'[k] == due[k];
      }
    }
  }

  /** Once nothing queued is due by `time`, the popped entries are exactly the
      entries of `orig` due by `time`, each as often as it was enrolled. */
  lemma {:induction false} PulledExactly<T>(due: seq<(int, T)>, rest: multiset<(int, T)>, orig: multiset<(int, T)>, time: int)
    requires Pulled(due, rest, orig, time)
    requires forall e | e in rest :: time < e.0
    ensures forall e :: multiset(due)[e] == if e.0 <= time then orig[e] else 0
  {
    forall e ensures multiset(due)[e] == if e.0 <= time then orig[e] else 0 {
      assert orig[e] == multiset(due)[e] + rest[e];
      if e.0 <= time {
        assert e !in rest;
      } else {
        assert e !in multiset(due);
      }
    }
  }

  /** One node of the heap; `priority` is the round at which `value` is due. */
  class SkewNode<T> {
    var left: SkewNode?<T>
    var right: SkewNode?<T>
    const priority: int
    const value: T

    ghost var Repr: set<object>
    /** The subtree rooted here, as a value. */
    ghost var Model: Tree<T>

    /** The subtrees are disjoint and acyclic, and Model mirrors them. */
    ghost predicate Valid()
      reads this, Repr
      decreases Repr
    {
      && this in Repr
      && (left != null ==>
            left in Repr && left.Repr <= Repr && this !in left.Repr && left.Valid())
      && (right != null ==>
            right in Repr && right.Repr <= Repr && this !in right.Repr && right.Valid())
      && (left != null && right != null ==> left.Repr !! right.Repr)
      && Model == Node(TreeOf(left), priority, value, TreeOf(right))
    }

    constructor (priority: int, value: T)
      ensures Valid() && fresh(Repr)
      ensures this.priority == priority && this.value == value
      ensures Model == Node(Leaf, priority, value, Leaf)
    {
      this.priority := priority;
      this.value := value;
      left, right := null, null;
      Repr := {this};
      Model := Node(Leaf, priority, value, Leaf);
    }
  }

  /** The objects of the tree rooted at `n` (none for the empty tree). */
  ghost function Footprint<T>(n: SkewNode?<T>): set<object>
    reads n
  {
    if n == null then {} else n.Repr
  }

  /** The tree rooted at `n`, as a value. */
  ghost function TreeOf<T>(n: SkewNode?<T>): Tree<T>
    reads n
  {
    if n == null then Leaf else n.Model
  }

  /** The skew-heap merge, in place: it rewires the nodes of both trees and
      returns the new root; the result mirrors MergeTrees. */
  method Merge<T>(node1: SkewNode?<T>, node2: SkewNode?<T>) returns (r: SkewNode?<T>)
    requires node1 != null ==> node1.Valid()
    requires node2 != null ==> node2.Valid()
    requires Footprint(node1) !! Footprint(node2)
    modifies Footprint(node1), Footprint(node2)
    ensures node1 == null ==> r == node2
    ensures node2 == null ==> r == node1
    ensures r != null ==> r.Valid()
    ensures Footprint(r) == old(Footprint(node1) + Footprint(node2))
    ensures TreeOf(r) == MergeTrees(old(TreeOf(node1)), old(TreeOf(node2)))
    decreases Footprint(node1) + Footprint(node2), 1
  {
    if node1 == null {
      return node2;
    }
    if node2 == null {
      return node1;
    }
    if node1.priority > node2.priority {
      r := MergeBelow(node2, node1);
    } else {
      r := MergeBelow(node1, node2);
    }
  }

  /** The body of Merge once the root with the smaller priority is `a`: the
      right subtree of `a` is merged with `b`, then the two children of `a`
      trade places. */
  method MergeBelow<T>(a: SkewNode<T>, b: SkewNode<T>) returns (r: SkewNode<T>)
    requires a.Valid() && b.Valid() && a.Repr !! b.Repr
    requires a.priority <= b.priority
    modifies a.Repr, b.Repr
    ensures r == a && a.Valid()
    ensures a.Repr == old(a.Repr + b.Repr)
    ensures a.Model == Node(MergeTrees(old(TreeOf(a.right)), old(b.Model)), a.priority, a.value, old(TreeOf(a.left)))
    decreases a.Repr + b.Repr, 0
  {
    ghost var aRepr, bRepr := a.Repr, b.Repr;
    var oldLeft := a.left;
    ghost var leftTree := TreeOf(oldLeft);
    var m := Merge(a.right, b);
    a.left, a.right := m, oldLeft;
    a.Repr := aRepr + bRepr;
    a.Model := Node(TreeOf(m), a.priority, a.value, leftTree);
    r := a;
  }

  /** A min-priority queue of items keyed by round number. */
  class TimingQueue<T> {
    var root: SkewNode?<T>

    ghost var Repr: set<object>
    /** The whole heap, as a value. */
    ghost var Model: Tree<T>

    ghost predicate Valid()
      reads this, Repr
    {
      && this in Repr
      && (root != null ==>
            root in Repr && root.Repr <= Repr && this !in root.Repr && root.Valid())
      && Model == TreeOf(root)
      && IsHeap(Model)
    }

    /** The entries enrolled and not yet pulled. */
    ghost function Elems(): multiset<(int, T)>
      reads this
    {
      Contents(Model)
    }

    constructor ()
      ensures Valid() && fresh(Repr)
      ensures Elems() == multiset{}
    {
      root := null;
      Repr := {this};
      Model := Leaf;
    }

    /** Adds the entry (time, card). */
    method Enroll(card: T, time: int)
      requires Valid()
      modifies Repr
      ensures Valid() && fresh(Repr - old(Repr))
      ensures Elems() == old(Elems()) + multiset{(time, card)}
    {
      ghost var before := Model;
      Link(card, time);
      InsertContents(before, time, card);
    }

    /** The pointer work of Enroll: a new one-node tree merged into the root. */
    method Link(card: T, time: int)
      requires Valid()
      modifies Repr
      ensures Valid() && fresh(Repr - old(Repr))
      ensures Model == MergeTrees(old(Model), Node(Leaf, time, card, Leaf))
    {
      var node := new SkewNode(time, card);
      ghost var before, single := Model, node.Model;
      root := Merge(root, node);
      Repr := {this} + root.Repr;
      Model := TreeOf(root);
      MergeIsHeap(before, single);
    }

    /** The body of PullFrom's loop: removes the root entry, which carries the
        least priority, by merging its two subtrees. */
    method PopRoot() returns (entry: (int, T))
      requires Valid() && root != null
      modifies Repr
      ensures Valid() && Repr <= old(Repr)
      ensures entry == (old(root.priority), old(root.value))
      ensures entry in old(Elems())
      ensures old(Elems()) == Elems() + multiset{entry}
      ensures forall e | e in old(Elems()) :: entry.0 <= e.0
    {
      ghost var t := Model;
      entry := (root.priority, root.value);
      Unlink();
      PopContents(t);
    }

    /** The pointer work of PopRoot: the root is replaced by the merge of its
        two subtrees. */
    method Unlink()
      requires Valid() && root != null
      modifies Repr
      ensures Valid() && Repr <= old(Repr)
      ensures Model == MergeTrees(old(Model).left, old(Model).right)
    {
      var top := root;
      ghost var t := Model;
      ghost var leftSet, rightSet := Footprint(top.left), Footprint(top.right);
      assert t.left == TreeOf(top.left) && t.right == TreeOf(top.right);
      assert IsHeap(t.left) && IsHeap(t.right);
      assert this !in leftSet + rightSet;
      assert leftSet + rightSet <= Repr;
      Repr := {this} + leftSet + rightSet;
      root := Merge(top.left, top.right);
      Model := TreeOf(root);
      MergeIsHeap(t.left, t.right);
    }

    /** Pops the root while its round is at most `time`: `due` lists the popped
        entries in the order they were popped and `holding` their items. */
    method PullFrom(time: int) returns (holding: seq<T>, ghost due: seq<(int, T)>)
      requires Valid()
      modifies Repr
      ensures Valid() && Repr <= old(Repr)
      ensures holding == Values(due)
      ensures Pulled(due, Elems(), old(Elems()), time)
      ensures forall e | e in Elems() :: time < e.0
      ensures forall e :: multiset(due)[e] == if e.0 <= time then old(Elems())[e] else 0
    {
      holding, due := [], [];
      while root != null && root.priority <= time
        invariant Valid() && Repr <= old(Repr)
        invariant holding == Values(due)
        invariant Pulled(due, Elems(), old(Elems()), time)
        decreases |Elems()|
      {
        ghost var before := Elems();
        var entry := PopRoot();
        PulledStep(due, before, Elems(), old(Elems()), entry, time);
        assert (due + [entry])[..|due|] == due;
        holding := holding + [entry.1];
        due := due + [entry];
      }
      if root != null {
        forall e | e in Elems() ensures time < e.0 {
          RootIsMinimum(Model, e);
        }
      }
      PulledExactly(due, Elems(), old(Elems()), time);
    }

    /** True when no entry remains. */
    method IsEmpty() returns (r: bool)
      requires Valid()
      ensures r <==> Elems() == multiset{}
    {
      r := root == null;
    }
  }
}
