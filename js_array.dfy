/**
 * The array methods of JavaScript the catalogue is written with
 * (`findIndex`, `filter`), as functions on sequences, and the notion of a
 * sequence whose entries are told apart by a key.
 */
module JsArray {

  /** `s.findIndex(p)`: the first index whose element satisfies `p`, or -1. */
  function FindIndex<T>(s: seq<T>, p: T -> bool): (r: int)
    ensures -1 <= r < |s|
    ensures r >= 0 ==> p(s[r]) && forall j :: 0 <= j < r ==> !p(s[j])
    ensures r == -1 <==> forall j :: 0 <= j < |s| ==> !p(s[j])
  {
    if |s| == 0 then -1
    else if p(s[0]) then 0
    else
      var k := FindIndex(s[1..], p);
      if k < 0 then -1 else k + 1
  }

  /** An index that holds the first element satisfying `p` is the one `FindIndex` returns. */
  lemma FindIndexIsFirst<T>(s: seq<T>, p: T -> bool, i: int)
    requires 0 <= i < |s| && p(s[i])
    requires forall j :: 0 <= j < i ==> !p(s[j])
    ensures FindIndex(s, p) == i
  {
  }

  /** `s.filter(p)`: the elements satisfying `p`, in their original order. */
  function Filter<T>(s: seq<T>, p: T -> bool): (r: seq<T>)
    ensures |r| <= |s|
    ensures forall k :: 0 <= k < |r| ==> r[k] in s && p(r[k])
    ensures forall i :: 0 <= i < |s| && p(s[i]) ==> s[i] in r
  {
    if |s| == 0 then []
    else (if p(s[0]) then [s[0]] else []) + Filter(s[1..], p)
  }

  /** Filtering by a predicate every element satisfies gives back the sequence. */
  lemma {:induction false} FilterKeepsAll<T>(s: seq<T>, p: T -> bool)
    requires forall i :: 0 <= i < |s| ==> p(s[i])
    ensures Filter(s, p) == s
  {
    if |s| > 0 {
      FilterKeepsAll(s[1..], p);
      assert s == [s[0]] + s[1..];
    }
  }

  /** Filtering out the one element that fails keeps everything around it, in order. */
  lemma {:induction false} FilterDropsOne<T>(before: seq<T>, x: T, after: seq<T>, p: T -> bool)
    requires forall j :: 0 <= j < |before| ==> p(before[j])
    requires forall j :: 0 <= j < |after| ==> p(after[j])
    requires !p(x)
    ensures Filter(before + [x] + after, p) == before + after
  {
    var s := before + [x] + after;
    if |before| == 0 {
      assert s[0] == x && s[1..] == after;
      FilterKeepsAll(after, p);
    } else {
      assert s[0] == before[0] && s[1..] == before[1..] + [x] + after;
      FilterDropsOne(before[1..], x, after, p);
      assert before == [before[0]] + before[1..];
    }
  }

  /** No two entries of `s` share a key. */
  predicate Distinct<T, K(==)>(s: seq<T>, key: T -> K) {
    forall i, j :: 0 <= i < j < |s| ==> key(s[i]) != key(s[j])
  }

  /** Filtering keeps the entries of a sequence apart. */
  lemma {:induction false} FilterKeepsDistinct<T, K>(s: seq<T>, p: T -> bool, key: T -> K)
    requires Distinct(s, key)
    ensures Distinct(Filter(s, p), key)
  {
    if |s| > 0 {
      var tail := Filter(s[1..], p);
      FilterKeepsDistinct(s[1..], p, key);
      forall k | 0 <= k < |tail|
        ensures key(tail[k]) != key(s[0])
      {
        var j :| 0 <= j < |s[1..]| && s[1..][j] == tail[k];
        assert s[j + 1] == tail[k];
      }
    }
  }

  /** Writing one entry whose key no other entry has keeps a sequence's entries apart. */
  lemma UpdateKeepsDistinct<T, K>(s: seq<T>, i: nat, x: T, key: T -> K)
    requires i < |s| && Distinct(s, key)
    requires forall j :: 0 <= j < |s| && j != i ==> key(s[j]) != key(x)
    ensures Distinct(s[i := x], key)
  {
  }

  /** Appending an entry whose key no entry has keeps a sequence's entries apart. */
  lemma AppendKeepsDistinct<T, K>(s: seq<T>, x: T, key: T -> K)
    requires Distinct(s, key)
    requires forall j :: 0 <= j < |s| ==> key(s[j]) != key(x)
    ensures Distinct(s + [x], key)
  {
  }
}
