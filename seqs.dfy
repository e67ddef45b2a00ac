/** Facts about sequences used to model the key order of a Python dict. */
module Seqs {

  /** A non-empty sequence is its head followed by its tail. */
  lemma HeadTail<T>(s: seq<T>)
    requires s != []
    ensures [s[0]] + s[1..] == s
  {
  }

  /** No element occurs twice. */
  predicate Distinct<T(==)>(s: seq<T>) {
    forall i, j :: 0 <= i < j < |s| ==> s[i] != s[j]
  }

  /** The position of the first occurrence of x in s. */
  function IndexOf<T(==)>(s: seq<T>, x: T): (i: nat)
    requires x in s
    ensures i < |s| && s[i] == x
    ensures x !in s[..i]
  {
    if s[0] == x then 0
    else
      var j := IndexOf(s[1..], x);
      assert s[..j + 1] == [s[0]] + s[1..][..j];
      j + 1
  }

  /** s with the first occurrence of x taken out, everything else in its old order. */
  function Without<T(==)>(s: seq<T>, x: T): (r: seq<T>)
    ensures x !in s ==> r == s
    ensures x in s ==> |r| == |s| - 1
    ensures forall y :: y in r ==> y in s
  {
    if x in s then s[..IndexOf(s, x)] + s[IndexOf(s, x) + 1..] else s
  }

  /** The first occurrence of x is at n when x sits at n and nowhere before. */
  lemma IndexOfAt<T>(s: seq<T>, x: T, n: nat)
    requires n < |s| && s[n] == x
    requires forall k :: 0 <= k < n ==> s[k] != x
    ensures IndexOf(s, x) == n
  {
    var i := IndexOf(s, x);
    assert forall k :: 0 <= k < i ==> s[..i][k] == s[k];
  }

  /** What is left of s once position i is cut out, as r. */
  lemma CutAt<T>(s: seq<T>, i: nat, r: seq<T>)
    requires i < |s| && r == s[..i] + s[i + 1..]
    ensures |r| == |s| - 1
    ensures forall k :: 0 <= k < i ==> r[k] == s[k]
    ensures forall k :: i <= k < |r| ==> r[k] == s[k + 1]
  {
  }

  /** Removing a key from a duplicate-free sequence removes exactly that key. */
  lemma WithoutRemoves<T>(s: seq<T>, x: T)
    requires Distinct(s)
    ensures Distinct(Without(s, x))
    ensures forall y :: y in Without(s, x) <==> y in s && y != x
    ensures x in s ==> |Without(s, x)| == |s| - 1
  {
    if x in s {
      var i := IndexOf(s, x);
      var r := s[..i] + s[i + 1..];
      assert Without(s, x) == r;
      CutAt(s, i, r);
      forall a, b | 0 <= a < b < |r| ensures r[a] != r[b] {
        var a', b' := if a < i then a else a + 1, if b < i then b else b + 1;
        assert r[a] == s[a'] && r[b] == s[b'];
      }
      forall y ensures y in r <==> y in s && y != x {
        if y in r {
          var k :| 0 <= k < |r| && r[k] == y;
          var k' := if k < i then k else k + 1;
          assert s[k'] == y && k' != i;
        }
        if y in s && y != x {
          var k :| 0 <= k < |s| && s[k] == y;
          var k' := if k < i then k else k - 1;
          assert r[k'] == y;
        }
      }
    }
  }

  /** A duplicate-free sequence has as many distinct elements as it is long. */
  lemma {:induction false} DistinctCard<T>(s: seq<T>)
    requires Distinct(s)
    ensures |set x | x in s| == |s|
  {
    if s != [] {
      var rest := s[1..];
      assert Distinct(rest) by {
        forall i, j | 0 <= i < j < |rest| ensures rest[i] != rest[j] {
          assert rest[i] == s[i + 1] && rest[j] == s[j + 1];
        }
      }
      DistinctCard(rest);
      assert s[0] !in rest by {
        forall k | 0 <= k < |rest| ensures rest[k] != s[0] {
          assert rest[k] == s[k + 1];
        }
      }
      assert (set x | x in s) == {s[0]} + (set x | x in rest) by {
        assert s == [s[0]] + rest;
      }
    }
  }
}
