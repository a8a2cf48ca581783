/** The `ORDER BY` of the search: the order a sort key selects, and a stable sort of the search hits
    by that order. Rows that tie keep the order the filtering produced them in. */
module Ordering {
  import opened Schema

  /** A search result row: the post and, for keyword searches, its summed posting weight. */
  datatype Hit = Hit(post: PostRow, weight: int)

  datatype Order =
    | UpdatedDesc | UpdatedAsc | CreatedDesc | CreatedAsc | TitleAsc | TitleDesc | ClicksDesc | WeightDesc

  /** The order for a `sort` parameter: the seven explicit keys, otherwise relevance, which is summed
      weight for a keyword search and most recently updated first without one. */
  function OrderFor(sort: string, hasKeyword: bool): Order
  {
    if sort == "updatednew" then UpdatedDesc
    else if sort == "updatedold" then UpdatedAsc
    else if sort == "creatednew" then CreatedDesc
    else if sort == "createdold" then CreatedAsc
    else if sort == "titleaz" then TitleAsc
    else if sort == "titleza" then TitleDesc
    else if sort == "mostviews" then ClicksDesc
    else if hasKeyword then WeightDesc
    else UpdatedDesc
  }

  const ExplicitSorts: seq<string> :=
    ["updatednew", "updatedold", "creatednew", "createdold", "titleaz", "titleza", "mostviews"]

  /** An explicit key decides the order whether or not there is a keyword; any other value falls
      back to relevance. Each key puts `x` no later than `y` by the column and direction it names. */
  lemma OrderForRule(sort: string, hasKeyword: bool, x: Hit, y: Hit)
    ensures sort in ExplicitSorts ==> OrderFor(sort, hasKeyword) == OrderFor(sort, !hasKeyword)
    ensures sort !in ExplicitSorts ==> OrderFor(sort, hasKeyword) == if hasKeyword then WeightDesc else UpdatedDesc
    ensures var before := Le(OrderFor(sort, hasKeyword), x, y);
            && (sort == "updatednew" ==> (before <==> x.post.updatedAt >= y.post.updatedAt))
            && (sort == "updatedold" ==> (before <==> x.post.updatedAt <= y.post.updatedAt))
            && (sort == "creatednew" ==> (before <==> x.post.createdAt >= y.post.createdAt))
            && (sort == "createdold" ==> (before <==> x.post.createdAt <= y.post.createdAt))
            && (sort == "titleaz" ==> (before <==> LexLe(x.post.title, y.post.title)))
            && (sort == "titleza" ==> (before <==> LexLe(y.post.title, x.post.title)))
            && (sort == "mostviews" ==> (before <==> x.post.clicks >= y.post.clicks))
            && (sort !in ExplicitSorts && hasKeyword ==> (before <==> x.weight >= y.weight))
            && (sort !in ExplicitSorts && !hasKeyword ==> (before <==> x.post.updatedAt >= y.post.updatedAt))
  {
  }

  /** Lexicographic order on titles, character by character. */
  predicate LexLe(a: string, b: string)
    decreases |a|
  {
    |a| == 0 || (|b| > 0 && (a[0] < b[0] || (a[0] == b[0] && LexLe(a[1..], b[1..]))))
  }

  lemma {:induction false} LexTotal(a: string, b: string)
    ensures LexLe(a, b) || LexLe(b, a)
    decreases |a|
  {
    if |a| > 0 && |b| > 0 && a[0] == b[0] {
      LexTotal(a[1..], b[1..]);
    }
  }

  lemma {:induction false} LexTrans(a: string, b: string, c: string)
    requires LexLe(a, b) && LexLe(b, c)
    ensures LexLe(a, c)
    decreases |a|
  {
    if |a| > 0 && a[0] == b[0] && b[0] == c[0] {
      LexTrans(a[1..], b[1..], c[1..]);
    }
  }

  /** `x` may come before `y` in order `o`. */
  predicate Le(o: Order, x: Hit, y: Hit)
  {
    match o
    case UpdatedDesc => x.post.updatedAt >= y.post.updatedAt
    case UpdatedAsc => x.post.updatedAt <= y.post.updatedAt
    case CreatedDesc => x.post.createdAt >= y.post.createdAt
    case CreatedAsc => x.post.createdAt <= y.post.createdAt
    case TitleAsc => LexLe(x.post.title, y.post.title)
    case TitleDesc => LexLe(y.post.title, x.post.title)
    case ClicksDesc => x.post.clicks >= y.post.clicks
    case WeightDesc => x.weight >= y.weight
  }

  lemma LeTotal(o: Order, x: Hit, y: Hit)
    ensures Le(o, x, y) || Le(o, y, x)
  {
    if o == TitleAsc || o == TitleDesc {
      LexTotal(x.post.title, y.post.title);
    }
  }

  lemma LeTrans(o: Order, x: Hit, y: Hit, z: Hit)
    requires Le(o, x, y) && Le(o, y, z)
    ensures Le(o, x, z)
  {
    if o == TitleAsc {
      LexTrans(x.post.title, y.post.title, z.post.title);
    } else if o == TitleDesc {
      LexTrans(z.post.title, y.post.title, x.post.title);
    }
  }

  predicate Sorted(o: Order, s: seq<Hit>)
  {
    forall i, j :: 0 <= i < j < |s| ==> Le(o, s[i], s[j])
  }

  /** Puts `x` after every element that may precede it. */
  function Insert(o: Order, x: Hit, s: seq<Hit>): (r: seq<Hit>)
    ensures multiset(r) == multiset(s) + multiset{x}
    ensures |r| == |s| + 1
    decreases |s|
  {
    if |s| == 0 || !Le(o, s[0], x) then [x] + s
    else
      assert s == [s[0]] + s[1..];
      [s[0]] + Insert(o, x, s[1..])
  }

  /** A sorted sequence with an element in front that precedes all of it is sorted. */
  lemma ConsSorted(o: Order, x: Hit, s: seq<Hit>)
    requires Sorted(o, s)
    requires forall k :: 0 <= k < |s| ==> Le(o, x, s[k])
    ensures Sorted(o, [x] + s)
  {
    var r := [x] + s;
    forall i, j | 0 <= i < j < |r| ensures Le(o, r[i], r[j]) {
      assert r[j] == s[j - 1];
      if i > 0 {
        assert r[i] == s[i - 1];
      }
    }
  }

  lemma TailSorted(o: Order, s: seq<Hit>)
    requires Sorted(o, s) && |s| > 0
    ensures Sorted(o, s[1..])
  {
    forall i, j | 0 <= i < j < |s[1..]| ensures Le(o, s[1..][i], s[1..][j]) {
      assert s[1..][i] == s[i + 1] && s[1..][j] == s[j + 1];
    }
  }

  /** Every element of `t` is `x` or an element of the tail of `s`, and the head of `s` precedes
      all of those. */
  lemma HeadPrecedesInsert(o: Order, x: Hit, s: seq<Hit>, t: seq<Hit>)
    requires Sorted(o, s) && |s| > 0 && Le(o, s[0], x)
    requires multiset(t) == multiset(s[1..]) + multiset{x}
    ensures forall k :: 0 <= k < |t| ==> Le(o, s[0], t[k])
  {
    forall k | 0 <= k < |t| ensures Le(o, s[0], t[k]) {
      assert t[k] in multiset(t);
      if t[k] != x {
        assert t[k] in multiset(s[1..]);
        var m :| 0 <= m < |s[1..]| && s[1..][m] == t[k];
        assert s[m + 1] == t[k];
      }
    }
  }

  lemma {:induction false} InsertSorted(o: Order, x: Hit, s: seq<Hit>)
    requires Sorted(o, s)
    ensures Sorted(o, Insert(o, x, s))
    decreases |s|
  {
    if |s| == 0 {
    } else if !Le(o, s[0], x) {
      LeTotal(o, s[0], x);
      forall k | 0 <= k < |s| ensures Le(o, x, s[k]) {
        if k > 0 {
          LeTrans(o, x, s[0], s[k]);
        }
      }
      ConsSorted(o, x, s);
    } else {
      TailSorted(o, s);
      InsertSorted(o, x, s[1..]);
      HeadPrecedesInsert(o, x, s, Insert(o, x, s[1..]));
      ConsSorted(o, s[0], Insert(o, x, s[1..]));
    }
  }

  /** Stable insertion sort: later rows are inserted after the earlier rows they tie with. */
  function SortHits(o: Order, s: seq<Hit>): (r: seq<Hit>)
    ensures multiset(r) == multiset(s)
    ensures |r| == |s|
    decreases |s|
  {
    if |s| == 0 then []
    else
      var n := |s| - 1;
      assert s == s[..n] + [s[n]];
      Insert(o, s[n], SortHits(o, s[..n]))
  }

  /** The sorted hits are ordered by the requested order and hold exactly the rows given. */
  lemma {:induction false} SortHitsCorrect(o: Order, s: seq<Hit>)
    ensures Sorted(o, SortHits(o, s))
    ensures multiset(SortHits(o, s)) == multiset(s)
    decreases |s|
  {
    if |s| > 0 {
      var n := |s| - 1;
      SortHitsCorrect(o, s[..n]);
      InsertSorted(o, s[n], SortHits(o, s[..n]));
    }
  }
}
