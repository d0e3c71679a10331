/** Sequence vocabulary shared by the models: distinctness, first-occurrence order, and
    removal of repeats keeping first occurrences. */
module Seqs {

  predicate Distinct<T(==)>(s: seq<T>) {
    forall i, j :: 0 <= i < j < |s| ==> s[i] != s[j]
  }

  /** a first occurs in s before b does: a occurs at some position before which b never does. */
  predicate InsertedBefore<T(==)>(s: seq<T>, a: T, b: T) {
    exists p :: 0 <= p < |s| && s[p] == a && b !in s[..p]
  }

  /** The values of s in order of first occurrence, each once. */
  function Dedupe<T(==)>(s: seq<T>): (r: seq<T>)
    ensures forall i :: 0 <= i < |r| ==> r[i] in s
    ensures forall i :: 0 <= i < |s| ==> s[i] in r
    ensures Distinct(r)
    decreases |s|
  {
    if s == [] then []
    else
      var front := s[..|s| - 1];
      var x := s[|s| - 1];
      assert s == front + [x];
      var d := Dedupe(front);
      if x in d then d else d + [x]
  }

  /** `Dedupe` keeps first-occurrence order. */
  lemma {:induction false} DedupeOrder<T>(s: seq<T>)
    ensures forall i, j :: 0 <= i < j < |Dedupe(s)| ==> InsertedBefore(s, Dedupe(s)[i], Dedupe(s)[j])
    decreases |s|
  {
    if s != [] {
      var front := s[..|s| - 1];
      DedupeOrder(front);
      var d := Dedupe(front);
      var r := Dedupe(s);
      forall i, j | 0 <= i < j < |r|
        ensures InsertedBefore(s, r[i], r[j])
      {
        assert r[i] == d[i] && r[i] in front;
        if j < |d| {
          assert r[j] == d[j];
          var p :| 0 <= p < |front| && front[p] == r[i] && r[j] !in front[..p];
          assert s[..p] == front[..p];
        } else {
          assert r[j] !in front;
          var p :| 0 <= p < |front| && front[p] == r[i];
          assert s[..p] == front[..p];
          assert forall x :: x in front[..p] ==> x in front;
        }
      }
    }
  }

  /** A repeat-free sequence is its own `Dedupe`. */
  lemma {:induction false} DedupeOfDistinct<T>(s: seq<T>)
    requires Distinct(s)
    ensures Dedupe(s) == s
    decreases |s|
  {
    if s != [] {
      var front := s[..|s| - 1];
      assert Distinct(front);
      DedupeOfDistinct(front);
      assert s[|s| - 1] !in front;
      assert s == front + [s[|s| - 1]];
    }
  }

  /** `Array.prototype.indexOf`: the first position of x, or -1 when x does not occur. */
  function IndexOf<T(==)>(s: seq<T>, x: T): (i: int)
    ensures i < 0 <==> x !in s
    ensures i < 0 ==> i == -1
    ensures 0 <= i ==> i < |s| && s[i] == x && forall j :: 0 <= j < i ==> s[j] != x
  {
    if s == [] then -1
    else if s[0] == x then 0
    else
      var i := IndexOf(s[1..], x);
      if i < 0 then -1
      else
        i + 1
  }
}
