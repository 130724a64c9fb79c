/**
 * The two array operations the tables are maintained with: `indexOf` and
 * `splice(start, 1)`, with the JavaScript meaning of a negative start, and the
 * removal that the code intends when it combines them.
 */
module SeqOps {

  /** `s.indexOf(x)`: the first position of `x`, or -1 when `x` is absent. */
  function IndexOf<T(==)>(s: seq<T>, x: T): (i: int)
    ensures -1 <= i < |s|
    ensures i == -1 <==> x !in s
    ensures 0 <= i ==> s[i] == x && x !in s[..i]
  {
    if s == [] then -1
    else if s[0] == x then 0
    else
      var j := IndexOf(s[1..], x);
      assert s[1..][..if j < 0 then 0 else j] == s[1..1 + if j < 0 then 0 else j];
      if j < 0 then -1 else j + 1
  }

  /**
   * What `s.splice(start, 1)` leaves in `s`: a negative start counts from the
   * end (and is clamped to 0), a start past the end removes nothing.
   */
  function SpliceOne<T>(s: seq<T>, start: int): (r: seq<T>)
    ensures 0 <= start < |s| ==> r == s[..start] + s[start + 1..]
    ensures start == -1 && s != [] ==> r == s[..|s| - 1]
    ensures |r| == if s == [] || start >= |s| then |s| else |s| - 1
  {
    var k := if start < 0 then (if |s| + start < 0 then 0 else |s| + start)
             else (if start > |s| then |s| else start);
    if k < |s| then s[..k] + s[k + 1..] else s
  }

  /** The intended removal: drop the first occurrence of `x`, if there is one. */
  function Without<T(==)>(s: seq<T>, x: T): (r: seq<T>)
    ensures x !in s ==> r == s
    ensures x in s ==> |r| == |s| - 1 && multiset(r) == multiset(s) - multiset{x}
  {
    if x in s then
      var i := IndexOf(s, x);
      assert s == s[..i] + [x] + s[i + 1..];
      s[..i] + s[i + 1..]
    else s
  }

  /** Removing an element keeps every other element, and only those. */
  lemma WithoutKeepsOthers<T>(s: seq<T>, x: T, y: T)
    requires y != x
    ensures y in Without(s, x) <==> y in s
  {
    if x in s {
      assert y in s <==> y in multiset(s);
      assert y in Without(s, x) <==> y in multiset(Without(s, x));
    }
  }

  /** When the element occurs, `splice(indexOf(x), 1)` is exactly the intended removal. */
  lemma SpliceIndexOfPresent<T>(s: seq<T>, x: T)
    requires x in s
    ensures SpliceOne(s, IndexOf(s, x)) == Without(s, x)
  {
  }

  /** Appending an element that was absent and then removing it gives the original back. */
  lemma {:induction false} WithoutAppended<T>(s: seq<T>, x: T)
    requires x !in s
    ensures Without(s + [x], x) == s
  {
    var t := s + [x];
    var i := IndexOf(t, x);
    assert forall j :: 0 <= j < |s| ==> t[j] == s[j];
    assert i == |s|;
    assert t[..|s|] == s;
  }

  /** If every element differs from `x`, so does every element left after removing something. */
  lemma WithoutSubset<T>(s: seq<T>, x: T, y: T)
    requires y in Without(s, x)
    ensures y in s
  {
    if x in s {
      assert y in multiset(Without(s, x));
    }
  }

  /** A position holding `x` with no earlier occurrence is what `indexOf` finds. */
  lemma IndexOfFirst<T>(s: seq<T>, x: T, i: int)
    requires 0 <= i < |s| && s[i] == x && x !in s[..i]
    ensures IndexOf(s, x) == i
  {
    assert s[..i + 1][i] == x;
  }
}
