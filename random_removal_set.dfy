/** A duplicate-free set with constant-time random removal: a dense array of
    the members plus a map from each member to its position in the array. */
module RandomRemoval {
  import opened Common

  /** `indices` records, for every member of `content`, its position, and
      holds no other keys. */
  ghost predicate Indexes<T>(content: seq<T>, indices: map<T, nat>)
  {
    && (forall i :: 0 <= i < |content| ==> content[i] in indices && indices[content[i]] == i)
    && (forall x :: x in indices ==> indices[x] < |content| && content[indices[x]] == x)
  }

  /** The array holds no duplicates and the map's keys are exactly its members. */
  lemma IndexedIsDistinct<T>(content: seq<T>, indices: map<T, nat>)
    requires Indexes(content, indices)
    ensures Distinct(content)
    ensures forall x :: x in indices <==> x in content
  {
    forall i, j | 0 <= i < j < |content| ensures content[i] != content[j] {
      assert indices[content[i]] == i && indices[content[j]] == j;
    }
  }

  /** The number of members is the length of the array. */
  lemma {:induction false} IndexedCount<T>(content: seq<T>, indices: map<T, nat>)
    requires Indexes(content, indices)
    ensures |indices.Keys| == |content|
  {
    IndexedIsDistinct(content, indices);
    DistinctCount(content);
    assert indices.Keys == set x | x in content;
  }

  lemma {:induction false} DistinctCount<T>(s: seq<T>)
    requires Distinct(s)
    ensures |set x | x in s| == |s|
  {
    if s != [] {
      var init := s[..|s| - 1];
      assert Distinct(init);
      DistinctCount(init);
      assert (set x | x in s) == (set x | x in init) + {s[|s| - 1]};
    }
  }

  /** The effect of `swap(i, last)` followed by `removeEnd`: the last member
      moves into slot `i` and the array shrinks by one. */
  function SwapRemove<T>(s: seq<T>, i: nat): seq<T>
    requires i < |s|
  {
    s[i := s[|s| - 1]][..|s| - 1]
  }

  /** Removing slot `i` this way drops exactly `s[i]` from a duplicate-free
      array, and keeps it duplicate-free. */
  lemma SwapRemoveMembers<T>(s: seq<T>, i: nat)
    requires i < |s| && Distinct(s)
    ensures |SwapRemove(s, i)| == |s| - 1
    ensures Distinct(SwapRemove(s, i))
    ensures forall x :: x in SwapRemove(s, i) <==> x in s && x != s[i]
  {
    var r := SwapRemove(s, i);
    forall x ensures x in r <==> x in s && x != s[i] {
      if x in s && x != s[i] {
        var k :| 0 <= k < |s| && s[k] == x;
        if k == |s| - 1 {
          if i != |s| - 1 {
            assert r[i] == x;
          }
        } else {
          assert r[k] == x;
        }
      }
    }
  }

  /** Appending a non-member keeps the index map consistent. */
  lemma PushIndexes<T>(content: seq<T>, indices: map<T, nat>, x: T)
    requires Indexes(content, indices) && x !in indices
    ensures Indexes(content + [x], indices[x := |content|])
  {
  }

  /** Swapping two slots and re-recording both keeps the index map consistent. */
  lemma SwapIndexes<T>(content: seq<T>, indices: map<T, nat>, i: nat, j: nat)
    requires Indexes(content, indices) && i < |content| && j < |content|
    ensures Indexes(content[i := content[j]][j := content[i]],
                    indices[content[j] := i][content[i] := j])
  {
    IndexedIsDistinct(content, indices);
  }

  /** Dropping the last slot and its key keeps the index map consistent. */
  lemma DropLastIndexes<T>(content: seq<T>, indices: map<T, nat>)
    requires Indexes(content, indices) && |content| > 0
    ensures Indexes(content[..|content| - 1], indices - {content[|content| - 1]})
  {
    IndexedIsDistinct(content, indices);
  }

  class RandomRemovalSet<T(==)> {
    var content: seq<T>
    var indices: map<T, nat>

    ghost predicate Valid()
      reads this
    {
      Indexes(content, indices)
    }

    /** The members of the set. */
    ghost function Elements(): set<T>
      reads this
    {
      indices.Keys
    }

    constructor ()
      ensures Valid()
      ensures content == [] && indices == map[]
    {
      content := [];
      indices := map[];
    }

    /** Membership by value, answered by the index map. */
    function Contains(x: T): (r: bool)
      reads this
      requires Valid()
      ensures r <==> x in content
    {
      IndexedIsDistinct(content, indices);
      x in indices
    }

    /** The number of members, answered by the array. */
    function Size(): (r: nat)
      reads this
      requires Valid()
      ensures r == |Elements()|
    {
      IndexedCount(content, indices);
      |content|
    }

    /** Adds `x` at the end of the array unless it is already a member. */
    method Add(x: T)
      requires Valid()
      modifies this
      ensures Valid()
      ensures old(x in content) ==> content == old(content) && indices == old(indices)
      ensures old(x !in content) ==> content == old(content) + [x] && indices == old(indices)[x := old(|content|)]
      ensures Elements() == old(Elements()) + {x}
    {
      if !Contains(x) {
        PushIndexes(content, indices, x);
        indices := indices[x := |content|];
        content := content + [x];
      }
    }

    /** Removes `x` if it is a member and does nothing otherwise: its slot is
        swapped with the last one, which is then dropped. */
    method Remove(x: T)
      requires Valid()
      modifies this
      ensures Valid()
      ensures old(x !in content) ==> content == old(content) && indices == old(indices)
      ensures old(x in content) ==> content == SwapRemove(old(content), old(indices[x]))
      ensures Elements() == old(Elements()) - {x}
    {
      if Contains(x) {
        var ind := indices[x];
        var ind2 := |content| - 1;
        Swap(ind, ind2);
        var _ := RemoveEnd();
      }
    }

    /** Removes and returns a random member, or gives None on an empty set.
        The random index `rand(size)` is `draw % size` for a caller-chosen
        `draw`. */
    method PullRandom(draw: nat) returns (r: Option<T>)
      requires Valid()
      modifies this
      ensures Valid()
      ensures old(|content|) == 0 <==> r == None
      ensures r == None ==> content == old(content) && indices == old(indices)
      ensures r != None ==>
                && r.value == old(content[draw % |content|])
                && content == SwapRemove(old(content), draw % old(|content|))
                && r.value in old(Elements())
                && Elements() == old(Elements()) - {r.value}
                && |Elements()| == |old(Elements())| - 1
    {
      if Size() == 0 {
        return None;
      }
      var ind := draw % Size();
      Swap(ind, Size() - 1);
      var x := RemoveEnd();
      r := Some(x);
      IndexedCount(content, indices);
    }

    /** Exchanges two slots of the array and re-records both positions. */
    method Swap(index1: nat, index2: nat)
      requires Valid() && index1 < |content| && index2 < |content|
      modifies this
      ensures Valid()
      ensures content == old(content[index1 := content[index2]][index2 := content[index1]])
      ensures indices == old(indices[content[index2] := index1][content[index1] := index2])
    {
      if index1 == index2 {
        return;
      }
      SwapIndexes(content, indices, index1, index2);
      content := content[index1 := content[index2]][index2 := content[index1]];
      indices := indices[content[index1] := index1];
      indices := indices[content[index2] := index2];
    }

    /** Drops the last slot and its key; returns the dropped member. */
    method RemoveEnd() returns (x: T)
      requires Valid() && |content| > 0
      modifies this
      ensures Valid()
      ensures x == old(content[|content| - 1])
      ensures content == old(content[..|content| - 1])
      ensures indices == old(indices) - {x}
    {
      DropLastIndexes(content, indices);
      x := content[|content| - 1];
      indices := indices - {x};
      content := content[..|content| - 1];
    }

    /** `remove` as first written: it swaps the member to the end and then
        calls `pop`, a method the set does not have, so removing a member
        always fails (`ok` is false) after the swap; removing a non-member
        does nothing. */
    method RemoveFirstVersion(x: T) returns (ok: bool)
      requires Valid()
      modifies this
      ensures Valid()
      ensures ok <==> old(x !in content)
      ensures ok <==> x !in old(Elements())
      ensures ok ==> content == old(content) && indices == old(indices)
      ensures !ok ==> x in content && content[|content| - 1] == x && Elements() == old(Elements())
    {
      IndexedIsDistinct(content, indices);
      if Contains(x) {
        var ind := indices[x];
        var ind2 := |content| - 1;
        ghost var before := content;
        Swap(ind, ind2);
        assert content[ind2] == before[ind] == x;
        return false;
      }
      return true;
    }
  }
}
