/**
 * Boss names and the insertion order of the boss table.
 *
 * Every command upper-cases the boss name it is given before using it as a
 * key, so `!killed ayin` and `!killed AYIN` address the same boss. The table
 * itself is a Python dict, which remembers the order in which keys were first
 * inserted; that order is what the spawn panel lists. The order is kept here
 * as a sequence of distinct keys beside the map.
 */
module Names {

  /** ASCII upper-casing of one character. */
  function UpperChar(c: char): (u: char)
    ensures 'a' <= c <= 'z' ==> u as int == c as int - 32
    ensures !('a' <= c <= 'z') ==> u == c
  {
    if 'a' <= c <= 'z' then (c as int - 32) as char else c
  }

  /** `str.upper()` restricted to ASCII letters. */
  function Upper(s: string): (r: string)
    ensures |r| == |s|
    ensures forall i :: 0 <= i < |s| ==> r[i] == UpperChar(s[i])
  {
    if s == [] then [] else [UpperChar(s[0])] + Upper(s[1..])
  }

  /** No lower-case ASCII letter in `s`. */
  predicate IsUpper(s: string)
  {
    forall i :: 0 <= i < |s| ==> !('a' <= s[i] <= 'z')
  }

  /** Upper-cased names contain no lower-case letter, and upper-casing them again changes nothing. */
  lemma {:induction false} UpperIsCanonical(s: string)
    ensures IsUpper(Upper(s))
    ensures Upper(Upper(s)) == Upper(s)
  {
    if s != [] {
      UpperIsCanonical(s[1..]);
      assert Upper(s)[1..] == Upper(s[1..]);
    }
  }

  predicate Distinct(xs: seq<string>)
  {
    forall i, j :: 0 <= i < j < |xs| ==> xs[i] != xs[j]
  }

  /** In a list of distinct keys, no key occurs before its own position. */
  lemma DistinctNotEarlier(xs: seq<string>, i: int)
    requires Distinct(xs) && 0 <= i < |xs|
    ensures xs[i] !in xs[..i]
  {
  }

  /**
   * The key order after `d[k] = v`: a new key goes last, an existing key keeps
   * its place.
   */
  function Put(order: seq<string>, k: string): (r: seq<string>)
    ensures k in order ==> r == order
    ensures k !in order ==> r == order + [k]
    ensures Distinct(order) ==> Distinct(r)
    ensures forall x :: x in r <==> x in order || x == k
  {
    if k in order then order else order + [k]
  }

  /** The key order after `d.pop(k)`: `k` leaves, every other key keeps its relative order. */
  function Without(order: seq<string>, k: string): (r: seq<string>)
    ensures forall x :: x in r <==> x in order && x != k
    ensures Distinct(order) ==> Distinct(r)
    ensures k !in order ==> r == order
    ensures |r| <= |order|
  {
    if order == [] then []
    else if order[0] == k then Without(order[1..], k)
    else
      var rest := Without(order[1..], k);
      assert Distinct(order) ==> order[0] !in order[1..] && order[0] !in rest;
      [order[0]] + rest
  }

  /** Where the `j`-th key left after a pop sits in the original order. */
  lemma {:induction false} WithoutSource(order: seq<string>, k: string, j: int) returns (p: int)
    requires 0 <= j < |Without(order, k)|
    ensures 0 <= p < |order| && order[p] == Without(order, k)[j]
  {
    if order[0] == k {
      var q := WithoutSource(order[1..], k, j);
      p := q + 1;
    } else if j == 0 {
      p := 0;
    } else {
      var q := WithoutSource(order[1..], k, j - 1);
      p := q + 1;
    }
  }

  /** Two keys left after a pop, found in the original order in the same relative order. */
  lemma {:induction false} WithoutPositions(order: seq<string>, k: string, i: int, j: int) returns (p: int, q: int)
    requires 0 <= i < j < |Without(order, k)|
    ensures 0 <= p < q < |order| && order[p] == Without(order, k)[i] && order[q] == Without(order, k)[j]
  {
    if order[0] == k {
      var a, b := WithoutPositions(order[1..], k, i, j);
      p, q := a + 1, b + 1;
    } else if i == 0 {
      var b := WithoutSource(order[1..], k, j - 1);
      p, q := 0, b + 1;
    } else {
      var a, b := WithoutPositions(order[1..], k, i - 1, j - 1);
      p, q := a + 1, b + 1;
    }
  }

  /** Removal keeps the other keys in their order: it is a subsequence of the original. */
  lemma WithoutKeepsOrder(order: seq<string>, k: string, i: int, j: int)
    requires 0 <= i < j < |Without(order, k)|
    ensures exists i', j' :: 0 <= i' < j' < |order| && order[i'] == Without(order, k)[i] && order[j'] == Without(order, k)[j]
  {
    var p, q := WithoutPositions(order, k, i, j);
  }
}
