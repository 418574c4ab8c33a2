/** Small vocabulary shared by the model of the flashcard trainer. */
module Common {

  datatype Option<T> = None | Some(value: T)

  /** No element occurs twice. */
  predicate Distinct<T(==)>(s: seq<T>)
  {
    forall i, j :: 0 <= i < j < |s| ==> s[i] != s[j]
  }

  /** Ruby's `uniq!`: the first occurrence of every element, in order. */
  function Uniq<T(==)>(s: seq<T>): (r: seq<T>)
    ensures Distinct(r)
    ensures forall i :: 0 <= i < |s| ==> s[i] in r
    ensures forall i :: 0 <= i < |r| ==> r[i] in s
    ensures |r| <= |s|
  {
    if s == [] then []
    else
      var r := Uniq(s[..|s| - 1]);
      var x := s[|s| - 1];
      if x in r then r else r + [x]
  }

  /** On a sequence without repetitions `uniq!` changes nothing. */
  lemma {:induction false} UniqOfDistinct<T>(s: seq<T>)
    requires Distinct(s)
    ensures Uniq(s) == s
  {
    if s != [] {
      var init := s[..|s| - 1];
      assert Distinct(init);
      UniqOfDistinct(init);
      assert s[|s| - 1] !in init;
      assert init + [s[|s| - 1]] == s;
    }
  }

  /** Ruby's `Integer(x)` for a float: truncation toward zero. */
  function Truncate(x: real): (r: int)
    ensures 0.0 <= x ==> r as real <= x < r as real + 1.0
    ensures x < 0.0 ==> r as real - 1.0 < x <= r as real
  {
    if 0.0 <= x then x.Floor else -((-x).Floor)
  }

  /** The due date of a card shown at `time` with delay `delay` and jitter
      factor `factor`: `time + delay * factor` rounded half up, by truncating
      after adding one half. A due date never lies before `time` when time,
      delay and factor are not negative. */
  function DueDate(time: int, delay: real, factor: real): (r: int)
    ensures 0 <= time && 0.0 <= delay && 0.0 <= factor ==>
              time <= r && r as real <= time as real + delay * factor + 0.5 < r as real + 1.0
  {
    var x := time as real + delay * factor + 0.5;
    var r := Truncate(x);
    assert 0 <= time && 0.0 <= delay && 0.0 <= factor ==> 0.0 <= delay * factor;
    r
  }
}
