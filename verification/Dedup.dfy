/** `IntegerArray::deduplicate`: removing later duplicates in place. */
module Dedup {

  /** The first occurrence of each value, in order. */
  function Firsts<T(==)>(s: seq<T>): seq<T> {
    var n := |s|;
    if n == 0 then []
    else Firsts(s[..n - 1]) + (if s[n - 1] in s[..n - 1] then [] else [s[n - 1]])
  }

  function Without<T>(s: seq<T>, j: nat): seq<T>
    requires j < |s|
  {
    s[..j] + s[j + 1..]
  }

  class IntegerArray<T(==)> {
    var elements: seq<T>

    constructor (elements: seq<T>)
      ensures this.elements == elements
    {
      this.elements := elements;
    }

    /** Array::internalRemove, for an array that does not own objects. */
    method Remove(index: int) returns (ok: bool)
      modifies this
      ensures ok <==> 0 <= index < |old(elements)|
      ensures elements == if ok then Without(old(elements), index) else old(elements)
    {
      if index < 0 || index >= |elements| {
        return false;
      }
      elements := elements[..index] + elements[index + 1..];
      return true;
    }

    /** Leaves exactly the first occurrence of each value, in the original order. */
    method Deduplicate()
      modifies this
      ensures elements == Firsts(old(elements))
    {
      var i := 0;
      while i < |elements| - 1
        invariant 0 <= i && Firsts(elements) == Firsts(old(elements))
        invariant forall p, q :: 0 <= p < i && p < q < |elements| ==> elements[p] != elements[q]
        decreases |elements| - i
      {
        ghost var size := |elements|;
        var j := i + 1;
        while j < |elements|
          invariant i < j <= |elements| <= size && Firsts(elements) == Firsts(old(elements))
          invariant forall p, q :: 0 <= p < i && p < q < |elements| ==> elements[p] != elements[q]
          invariant forall q :: i < q < j ==> elements[i] != elements[q]
          decreases |elements| - j
        {
          if elements[i] == elements[j] {
            RemovalKeepsFirsts(elements, i, j);
            var _ := Remove(j);
            j := j - 1;
          }
          j := j + 1;
        }
        i := i + 1;
      }
      DistinctAreFirsts(elements);
    }
  }

  lemma {:induction false} SuffixKeepsFirsts<T>(a: seq<T>, x: T, b: seq<T>)
    requires x in a
    ensures Firsts(a + [x] + b) == Firsts(a + b)
    decreases |b|
  {
    var n := |b|;
    if n == 0 {
      assert a + [x] + b == a + [x] && (a + [x])[..|a|] == a && a + b == a;
    } else {
      var c := b[..n - 1];
      SuffixKeepsFirsts(a, x, c);
      assert (a + [x] + b)[..|a| + n] == a + [x] + c && (a + b)[..|a| + n - 1] == a + c;
    }
  }

  lemma SplitAt<T>(s: seq<T>, j: nat)
    requires j < |s|
    ensures s == s[..j] + [s[j]] + s[j + 1..]
  {
  }

  lemma RemovalKeepsFirsts<T>(s: seq<T>, i: nat, j: nat)
    requires i < j < |s| && s[i] == s[j]
    ensures Firsts(Without(s, j)) == Firsts(s)
  {
    SplitAt(s, j);
    assert s[..j][i] == s[j];
    SuffixKeepsFirsts(s[..j], s[j], s[j + 1..]);
  }

  lemma {:induction false} DistinctAreFirsts<T>(s: seq<T>)
    requires forall p, q :: 0 <= p < q < |s| ==> s[p] != s[q]
    ensures Firsts(s) == s
    decreases |s|
  {
    var n := |s|;
    if n > 0 {
      DistinctAreFirsts(s[..n - 1]);
    }
  }

  // ---------- What `Firsts` means ----------

  /** Where a value first occurs. */
  function First<T(==)>(s: seq<T>, x: T): (k: nat)
    requires x in s
    ensures k < |s| && s[k] == x && x !in s[..k]
  {
    var n := |s|;
    if x in s[..n - 1] then
      assert s[..n - 1][..First(s[..n - 1], x)] == s[..First(s[..n - 1], x)];
      First(s[..n - 1], x)
    else n - 1
  }

  /** It has the values of the sequence, each of them once, in the order of their first occurrences. */
  lemma {:induction false} FirstsMeaning<T>(s: seq<T>)
    ensures forall x :: x in Firsts(s) <==> x in s
    ensures forall i, j :: 0 <= i < j < |Firsts(s)| ==> Firsts(s)[i] != Firsts(s)[j]
    ensures forall i, j :: 0 <= i < j < |Firsts(s)| ==> First(s, Firsts(s)[i]) < First(s, Firsts(s)[j])
    decreases |s|
  {
    var n := |s|;
    if n > 0 {
      var t := s[..n - 1];
      FirstsMeaning(t);
      assert s == t + [s[n - 1]];
    }
  }
}
