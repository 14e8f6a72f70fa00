/** Sequence helpers shared by every table of the store: filtering (a query or
    the rows a cascade keeps), row-wise update, lookup by key and uniqueness of
    a key column. */
module Seqs {
  import opened Wrappers

  /** The elements of `s` that satisfy `f`, in their original order. */
  function Keep<T(!new)>(s: seq<T>, f: T -> bool): (r: seq<T>)
    ensures |r| <= |s|
    ensures forall x :: x in r <==> x in s && f(x)
  {
    if |s| == 0 then []
    else if f(s[0]) then [s[0]] + Keep(s[1..], f)
    else Keep(s[1..], f)
  }

  /** Every row is updated by `g`; positions are kept. */
  function Apply<T>(s: seq<T>, g: T -> T): (r: seq<T>)
    ensures |r| == |s|
    ensures forall i :: 0 <= i < |s| ==> r[i] == g(s[i])
  {
    seq(|s|, i requires 0 <= i < |s| => g(s[i]))
  }

  /** No two rows of `s` share a value of the column `key`. */
  predicate DistinctBy<T, K(==)>(s: seq<T>, key: T -> K)
  {
    forall i, j :: 0 <= i < j < |s| ==> key(s[i]) != key(s[j])
  }

  /** The first row whose `key` column equals `k`. */
  function Find<T(!new), K(==)>(s: seq<T>, key: T -> K, k: K): (r: Option<T>)
    ensures r.Some? ==> r.value in s && key(r.value) == k
    ensures r.None? <==> forall x :: x in s ==> key(x) != k
  {
    if |s| == 0 then None
    else if key(s[0]) == k then Some(s[0])
    else Find(s[1..], key, k)
  }

  /** On a unique column, the lookup returns the one row carrying the key. */
  lemma FindUnique<T(!new), K>(s: seq<T>, key: T -> K, x: T)
    requires DistinctBy(s, key)
    requires x in s
    ensures Find(s, key, key(x)) == Some(x)
  {
    var r := Find(s, key, key(x));
    var i :| 0 <= i < |s| && s[i] == x;
    var j :| 0 <= j < |s| && s[j] == r.value;
    if i < j {
      assert key(s[i]) != key(s[j]);
    } else if j < i {
      assert key(s[j]) != key(s[i]);
    }
  }

  /** Filtering keeps each element with its full multiplicity or drops it entirely. */
  lemma {:induction false} KeepMultiset<T(!new)>(s: seq<T>, f: T -> bool)
    ensures forall x :: multiset(Keep(s, f))[x] == if f(x) then multiset(s)[x] else 0
  {
    if |s| > 0 {
      KeepMultiset(s[1..], f);
      assert s == [s[0]] + s[1..];
    }
  }

  /** Filtering a table whose key column is unique leaves it unique. */
  lemma {:induction false} KeepDistinctBy<T(!new), K>(s: seq<T>, f: T -> bool, key: T -> K)
    requires DistinctBy(s, key)
    ensures DistinctBy(Keep(s, f), key)
  {
    if |s| > 0 {
      var t := s[1..];
      DistinctByTail(s, key);
      KeepDistinctBy(t, f, key);
      if f(s[0]) {
        var k := Keep(t, f);
        var r := Keep(s, f);
        assert r == [s[0]] + k;
        forall i, j | 0 <= i < j < |r| ensures key(r[i]) != key(r[j]) {
          assert r[j] == k[j - 1];
          if i == 0 {
            assert k[j - 1] in k;
            var m :| 0 <= m < |t| && t[m] == k[j - 1];
            assert s[m + 1] == r[j];
          } else {
            assert r[i] == k[i - 1];
          }
        }
      }
    }
  }

  /** Appending a row whose key is new keeps the key column unique. */
  lemma AppendDistinctBy<T(!new), K>(s: seq<T>, x: T, key: T -> K)
    requires DistinctBy(s, key)
    requires forall y :: y in s ==> key(y) != key(x)
    ensures DistinctBy(s + [x], key)
  {
    var r := s + [x];
    forall i, j | 0 <= i < j < |r| ensures key(r[i]) != key(r[j]) {
      if j == |s| {
        assert r[i] == s[i] && s[i] in s;
      } else {
        assert r[i] == s[i] && r[j] == s[j];
      }
    }
  }

  /** Filtering distributes over appending one element. */
  lemma {:induction false} KeepAppend<T(!new)>(s: seq<T>, x: T, f: T -> bool)
    ensures Keep(s + [x], f) == Keep(s, f) + (if f(x) then [x] else [])
  {
    if |s| == 0 {
      assert s + [x] == [x];
    } else {
      assert (s + [x])[1..] == s[1..] + [x];
      KeepAppend(s[1..], x, f);
    }
  }

  /** A filter every element passes returns the sequence unchanged. */
  lemma {:induction false} KeepAll<T(!new)>(s: seq<T>, f: T -> bool)
    requires forall x :: x in s ==> f(x)
    ensures Keep(s, f) == s
  {
    if |s| > 0 {
      assert s[0] in s;
      forall x | x in s[1..] ensures f(x) {
        assert x in s;
      }
      KeepAll(s[1..], f);
      assert s == [s[0]] + s[1..];
    }
  }

  /** A filter no element passes returns the empty sequence. */
  lemma {:induction false} KeepNone<T(!new)>(s: seq<T>, f: T -> bool)
    requires forall x :: x in s ==> !f(x)
    ensures Keep(s, f) == []
  {
    if |s| > 0 {
      assert s[0] in s;
      forall x | x in s[1..] ensures !f(x) {
        assert x in s;
      }
      KeepNone(s[1..], f);
    }
  }

  /** On a unique column no row occurs twice. */
  lemma {:induction false} DistinctByMultiplicity<T(!new), K>(s: seq<T>, key: T -> K)
    requires DistinctBy(s, key)
    ensures forall x :: multiset(s)[x] <= 1
  {
    if |s| > 0 {
      var t := s[1..];
      DistinctByTail(s, key);
      DistinctByMultiplicity(t, key);
      assert s == [s[0]] + t;
      assert s[0] !in t by {
        forall m | 0 <= m < |t| ensures t[m] != s[0] {
          assert key(s[0]) != key(s[m + 1]);
        }
      }
    }
  }

  lemma DistinctByTail<T, K>(s: seq<T>, key: T -> K)
    requires DistinctBy(s, key) && |s| > 0
    ensures DistinctBy(s[1..], key)
  {
    var t := s[1..];
    forall i, j | 0 <= i < j < |t| ensures key(t[i]) != key(t[j]) {
      assert t[i] == s[i + 1] && t[j] == s[j + 1];
    }
  }
}
