/** Small value types and sequence helpers shared by the wiki model. */
module Common {

  datatype Option<T> = None | Some(value: T)

  /** The elements of `s` with duplicates removed, keeping first occurrences in order
      (what SQL `DISTINCT` returns when the rows come in table order). */
  function Dedup<T(==)>(s: seq<T>): (r: seq<T>)
    ensures forall i :: 0 <= i < |s| ==> s[i] in r
    ensures forall i :: 0 <= i < |r| ==> r[i] in s
    ensures forall i, j :: 0 <= i < j < |r| ==> r[i] != r[j]
    decreases |s|
  {
    if |s| == 0 then []
    else
      var rest := Dedup(s[..|s| - 1]);
      if s[|s| - 1] in rest then rest else rest + [s[|s| - 1]]
  }

  /** Largest element of `s`, or `dflt` when `s` is empty or holds nothing larger. */
  function MaxOr(s: seq<int>, dflt: int): (m: int)
    ensures m >= dflt
    ensures forall i :: 0 <= i < |s| ==> s[i] <= m
    ensures m == dflt || m in s
    decreases |s|
  {
    if |s| == 0 then dflt
    else
      var rest := MaxOr(s[1..], dflt);
      if s[0] > rest then s[0] else rest
  }

  /** The elements of `s` that satisfy `keep`, in order (a `WHERE` over a table). */
  function Filter<T>(s: seq<T>, keep: T -> bool): (r: seq<T>)
    ensures |r| <= |s|
    ensures forall i :: 0 <= i < |r| ==> r[i] in s && keep(r[i])
    ensures forall i :: 0 <= i < |s| && keep(s[i]) ==> s[i] in r
    decreases |s|
  {
    if |s| == 0 then []
    else
      var rest := Filter(s[1..], keep);
      assert forall i :: 1 <= i < |s| ==> s[i] == s[1..][i - 1];
      if keep(s[0]) then [s[0]] + rest else rest
  }

  /** Number of elements of `s` that satisfy `f` (`COUNT(*)` of a single-table `WHERE`). */
  function Count<T>(s: seq<T>, f: T -> bool): (n: nat)
    ensures n <= |s|
    ensures n == 0 <==> forall i :: 0 <= i < |s| ==> !f(s[i])
    decreases |s|
  {
    if |s| == 0 then 0
    else
      assert forall i :: 1 <= i < |s| ==> s[i] == s[1..][i - 1];
      (if f(s[0]) then 1 else 0) + Count(s[1..], f)
  }

  /** Sum of `f` over `s`, for row multiplicities. */
  function Total<T>(s: seq<T>, f: T -> nat): (n: nat)
    ensures n == 0 <==> forall i :: 0 <= i < |s| ==> f(s[i]) == 0
    decreases |s|
  {
    if |s| == 0 then 0
    else
      assert forall i :: 1 <= i < |s| ==> s[i] == s[1..][i - 1];
      f(s[0]) + Total(s[1..], f)
  }

  /** Sum of `f` over `s`, for aggregates that may be negative. */
  function SumInt<T>(s: seq<T>, f: T -> int): int
    decreases |s|
  {
    if |s| == 0 then 0 else f(s[0]) + SumInt(s[1..], f)
  }

  /** A total of 0/1 indicators is the count of the indicated elements. */
  lemma {:induction false} TotalOfIndicators<T>(s: seq<T>, f: T -> nat, g: T -> bool)
    requires forall i :: 0 <= i < |s| ==> f(s[i]) == if g(s[i]) then 1 else 0
    ensures Total(s, f) == Count(s, g)
    decreases |s|
  {
    if |s| > 0 {
      assert forall i :: 1 <= i < |s| ==> s[i] == s[1..][i - 1];
      TotalOfIndicators(s[1..], f, g);
    }
  }

  /** A total is at least the contribution of any one element. */
  lemma {:induction false} TotalAtLeast<T>(s: seq<T>, f: T -> nat, k: nat)
    requires k < |s|
    ensures Total(s, f) >= f(s[k])
    decreases |s|
  {
    if k > 0 {
      TotalAtLeast(s[1..], f, k - 1);
      assert s[1..][k - 1] == s[k];
    }
  }

  /** A total where exactly one element contributes is that element's contribution. */
  lemma {:induction false} TotalSingle<T>(s: seq<T>, f: T -> nat, k: nat)
    requires k < |s|
    requires forall i :: 0 <= i < |s| && i != k ==> f(s[i]) == 0
    ensures Total(s, f) == f(s[k])
    decreases |s|
  {
    if k == 0 {
      assert forall i :: 0 <= i < |s[1..]| ==> f(s[1..][i]) == 0 by {
        forall i | 0 <= i < |s[1..]| ensures f(s[1..][i]) == 0 {
          assert s[1..][i] == s[i + 1];
        }
      }
    } else {
      forall i | 0 <= i < |s[1..]| && i != k - 1 ensures f(s[1..][i]) == 0 {
        assert s[1..][i] == s[i + 1];
      }
      TotalSingle(s[1..], f, k - 1);
      assert s[1..][k - 1] == s[k];
    }
  }

  predicate NoDup<T(==)>(s: seq<T>)
  {
    forall i, j :: 0 <= i < j < |s| ==> s[i] != s[j]
  }

  /** The set of elements of `s`. */
  function Elems<T>(s: seq<T>): (r: set<T>)
    ensures forall i :: 0 <= i < |s| ==> s[i] in r
    ensures forall x :: x in r ==> x in s
    decreases |s|
  {
    if |s| == 0 then {} else {s[0]} + Elems(s[1..])
  }

  lemma {:induction false} ElemsOfNoDup<T>(s: seq<T>)
    requires NoDup(s)
    ensures |Elems(s)| == |s|
    decreases |s|
  {
    if |s| > 0 {
      assert NoDup(s[1..]) by {
        forall i, j | 0 <= i < j < |s[1..]| ensures s[1..][i] != s[1..][j] {
          assert s[1..][i] == s[i + 1] && s[1..][j] == s[j + 1];
        }
      }
      ElemsOfNoDup(s[1..]);
      assert s[0] !in s[1..] by {
        forall k | 0 <= k < |s[1..]| ensures s[1..][k] != s[0] {
          assert s[1..][k] == s[k + 1];
        }
      }
    }
  }

  lemma {:induction false} SubsetCard<T>(a: set<T>, b: set<T>)
    requires a <= b
    ensures |a| <= |b|
    decreases |a|
  {
    if a != {} {
      var x :| x in a;
      SubsetCard(a - {x}, b - {x});
    }
  }

  /** A subset at least as large as its superset is the superset. */
  lemma SubsetFull<T>(a: set<T>, b: set<T>)
    requires a <= b && |a| >= |b|
    ensures a == b
  {
    if a != b {
      var x :| x in b && x !in a;
      SubsetCard(a, b - {x});
    }
  }

  /** The keys of the elements of `s` that satisfy `f`. */
  function KeysWhere<T, K>(s: seq<T>, f: T -> bool, key: T -> K): (r: set<K>)
    ensures forall i :: 0 <= i < |s| && f(s[i]) ==> key(s[i]) in r
    ensures forall x :: x in r ==> exists i :: 0 <= i < |s| && f(s[i]) && key(s[i]) == x
    decreases |s|
  {
    if |s| == 0 then {}
    else
      assert forall i :: 1 <= i < |s| ==> s[i] == s[1..][i - 1];
      (if f(s[0]) then {key(s[0])} else {}) + KeysWhere(s[1..], f, key)
  }

  /** When the selected elements have pairwise different keys, counting them counts their keys. */
  lemma {:induction false} CountDistinctKeys<T, K>(s: seq<T>, f: T -> bool, key: T -> K)
    requires forall i, j :: 0 <= i < j < |s| && f(s[i]) && f(s[j]) ==> key(s[i]) != key(s[j])
    ensures Count(s, f) == |KeysWhere(s, f, key)|
    decreases |s|
  {
    if |s| > 0 {
      var t := s[1..];
      forall i, j | 0 <= i < j < |t| && f(t[i]) && f(t[j]) ensures key(t[i]) != key(t[j]) {
        assert t[i] == s[i + 1] && t[j] == s[j + 1];
      }
      CountDistinctKeys(t, f, key);
      if f(s[0]) {
        forall x | x in KeysWhere(t, f, key) ensures x != key(s[0]) {
          var i :| 0 <= i < |t| && f(t[i]) && key(t[i]) == x;
          assert t[i] == s[i + 1];
        }
      }
    }
  }

  lemma {:induction false} FilterNoDup<T>(s: seq<T>, keep: T -> bool)
    requires NoDup(s)
    ensures NoDup(Filter(s, keep))
    decreases |s|
  {
    if |s| > 0 {
      assert NoDup(s[1..]) by {
        forall i, j | 0 <= i < j < |s[1..]| ensures s[1..][i] != s[1..][j] {
          assert s[1..][i] == s[i + 1] && s[1..][j] == s[j + 1];
        }
      }
      FilterNoDup(s[1..], keep);
      var rest := Filter(s[1..], keep);
      if keep(s[0]) {
        forall k | 0 <= k < |rest| ensures rest[k] != s[0] {
          var m :| 0 <= m < |s[1..]| && s[1..][m] == rest[k];
          assert s[m + 1] == rest[k];
        }
        var r := [s[0]] + rest;
        forall i, j | 0 <= i < j < |r| ensures r[i] != r[j] {
          assert r[j] == rest[j - 1];
          if i > 0 {
            assert r[i] == rest[i - 1];
          }
        }
      }
    }
  }
}
