/** The search and filter engine of `getSearchPostsNew` and its older variant `getSearchPosts`, over
    in-memory tables. Each SQL join is modelled by how many joined rows it makes for a post (its
    multiplicity): a filter admits a post when that number is positive, and `count(*)` and
    `sum(weight)` add it up per group. */
module Search {
  import opened Common
  import opened Strings
  import opened Schema
  import opened Permissions
  import opened SearchParams
  import opened Ordering
  import opened Listing

  /** Which entry point: the current one (with or without `titleOnly`) or the older one. */
  datatype Variant = Current(titleOnly: bool) | Legacy

  /** Everything a search depends on. `words` is the keyword's stemmed term list. */
  datatype Ctx = Ctx(t: Store, q: Query, caller: Caller, cfg: Config, words: seq<string>, v: Variant)

  // ---------------------------------------------------------------- the permission joins

  /** Rows of `permissions` joined to a `post_permissions` row. */
  function PermRows(t: Store, pp: PostPermission): nat
  {
    Count(t.permissions, (x: Permission) => x.id == pp.permissionId)
  }

  /** How many rows the `LEFT JOIN permissions` makes for `pp` that pass
      `permissions.constant = 'read' OR posts.created_by = user`; a missing permission row joins as
      NULL, which only the creator test can pass. */
  function PermFactor(t: Store, pp: PostPermission, creator: bool): nat
  {
    if PermRows(t, pp) == 0 then (if creator then 1 else 0)
    else Count(t.permissions, (x: Permission) => x.id == pp.permissionId && (x.constant == "read" || creator))
  }

  function Holders(t: Store, pp: PostPermission): nat
  {
    Count(t.userRoles, (u: UserRole) => u.roleId == pp.roleId)
  }

  /** How many rows the `LEFT JOIN user_roles` makes for `pp` that pass
      `user_roles.user_id = user OR user_roles.user_id IS NULL`: a role nobody holds joins as one NULL
      row, which passes. */
  function RoleFactor(t: Store, pp: PostPermission, userId: int): nat
  {
    if Holders(t, pp) == 0 then 1
    else Count(t.userRoles, (u: UserRole) => u.roleId == pp.roleId && u.userId == userId)
  }

  predicate HasPermRows(t: Store, p: PostRow)
  {
    exists i :: 0 <= i < |t.postPermissions| && t.postPermissions[i].postId == p.id
  }

  /** A product of join multiplicities is positive iff both are. */
  function Mul(a: nat, b: nat): (r: nat)
    ensures r > 0 <==> a > 0 && b > 0
  {
    if a == 0 || b == 0 then 0
    else
      assert a * b >= b;
      a * b
  }

  /** Rows the two permission joins make through the permission row `pp` of post `p`. */
  function RowFactor(t: Store, pp: PostPermission, p: PostRow, caller: Caller): nat
  {
    if pp.postId == p.id then Mul(PermFactor(t, pp, p.createdBy == caller.userId), RoleFactor(t, pp, caller.userId)) else 0
  }

  /** Rows the visibility joins make for post `p`: one for an admin (no join); otherwise a post
      without `post_permissions` rows joins as one NULL row, which only its creator passes. */
  function Visibility(t: Store, p: PostRow, caller: Caller): nat
  {
    if caller.isAdmin then 1
    else if !HasPermRows(t, p) then (if p.createdBy == caller.userId then 1 else 0)
    else Total(t.postPermissions, (pp: PostPermission) => RowFactor(t, pp, p, caller))
  }

  /** Who the search shows a post to: an admin; the creator of a post without permission rows; or
      anyone for whom some permission row of the post passes both joined conditions. */
  lemma VisibilityRule(t: Store, p: PostRow, caller: Caller)
    ensures Visibility(t, p, caller) > 0 <==>
            || caller.isAdmin
            || (!HasPermRows(t, p) && p.createdBy == caller.userId)
            || exists i :: 0 <= i < |t.postPermissions| && t.postPermissions[i].postId == p.id &&
                           PermFactor(t, t.postPermissions[i], p.createdBy == caller.userId) > 0 &&
                           RoleFactor(t, t.postPermissions[i], caller.userId) > 0
  {
    if !caller.isAdmin && HasPermRows(t, p) {
      assert Visibility(t, p, caller) == Total(t.postPermissions, (pp: PostPermission) => RowFactor(t, pp, p, caller));
    }
  }

  /** A user granted `read` on a post through one of their roles finds it in the search. */
  lemma ReadGrantIsListed(t: Store, p: PostRow, caller: Caller, i: int, j: int, k: int)
    requires GrantRow(t, i, j, k, p.id, caller.userId, "read")
    ensures Visibility(t, p, caller) > 0
  {
    var pp := t.postPermissions[i];
    var creator := p.createdBy == caller.userId;
    assert t.permissions[j].id == pp.permissionId;
    assert PermRows(t, pp) > 0;
    assert PermFactor(t, pp, creator) > 0;
    assert t.userRoles[k].roleId == pp.roleId && t.userRoles[k].userId == caller.userId;
    assert Holders(t, pp) > 0;
    assert RoleFactor(t, pp, caller.userId) > 0;
    VisibilityRule(t, p, caller);
  }

  /** `read` granted to a role that nobody holds shows the post to every user, because the missing
      `user_roles` row joins as NULL and `user_id IS NULL` passes. */
  lemma UnheldRoleShowsEveryone(t: Store, p: PostRow, caller: Caller, i: nat, j: nat)
    requires i < |t.postPermissions| && t.postPermissions[i].postId == p.id
    requires j < |t.permissions| && t.permissions[j].id == t.postPermissions[i].permissionId
    requires t.permissions[j].constant == "read"
    requires forall k :: 0 <= k < |t.userRoles| ==> t.userRoles[k].roleId != t.postPermissions[i].roleId
    ensures Visibility(t, p, caller) > 0
  {
    var pp := t.postPermissions[i];
    assert PermRows(t, pp) > 0;
    assert PermFactor(t, pp, p.createdBy == caller.userId) > 0;
    assert RoleFactor(t, pp, caller.userId) == 1;
    VisibilityRule(t, p, caller);
  }

  /** A non-admin creator does not find their own post when every role it grants anything to is
      held, but not by them: the creator test only relaxes the permission condition. */
  lemma CreatorCanBeHidden(t: Store, p: PostRow, caller: Caller)
    requires !caller.isAdmin && p.createdBy == caller.userId
    requires HasPermRows(t, p)
    requires forall i :: 0 <= i < |t.postPermissions| && t.postPermissions[i].postId == p.id ==>
               Holders(t, t.postPermissions[i]) > 0 &&
               forall k :: 0 <= k < |t.userRoles| && t.userRoles[k].roleId == t.postPermissions[i].roleId ==>
                             t.userRoles[k].userId != caller.userId
    ensures Visibility(t, p, caller) == 0
  {
    forall i | 0 <= i < |t.postPermissions| && t.postPermissions[i].postId == p.id
      ensures RoleFactor(t, t.postPermissions[i], caller.userId) == 0
    {
    }
    VisibilityRule(t, p, caller);
  }

  // ---------------------------------------------------------------- category filters

  /** `WHERE name = v1 AND name = v2 ...` on one joined row. */
  predicate NamedAll(name: string, values: seq<string>)
  {
    forall k :: 0 <= k < |values| ==> values[k] == name
  }

  /** Rows of `post_badges JOIN badges` for the post that pass the badge filter. */
  function BadgeFactor(t: Store, p: PostRow, values: seq<string>): nat
  {
    if |values| == 0 then 1
    else Total(t.postBadges, (pb: PostBadge) =>
                 if pb.postId == p.id then Count(t.badges, (b: Badge) => b.id == pb.badgeId && NamedAll(b.name, values)) else 0)
  }

  function TagFactor(t: Store, p: PostRow, values: seq<string>): nat
  {
    if |values| == 0 then 1
    else Total(t.postTags, (pt: PostTag) =>
                 if pt.postId == p.id then Count(t.tags, (g: Tag) => g.id == pt.tagId && NamedAll(g.name, values)) else 0)
  }

  /** Rows of `JOIN types ON types.id = type_id` that pass `name = v1 OR name = v2 ...`. */
  function TypeFactor(t: Store, p: PostRow, values: seq<string>): nat
  {
    if |values| == 0 then 1 else Count(t.types, (x: Lookup) => x.id == p.typeId && x.name in values)
  }

  function FormatFactor(t: Store, p: PostRow, values: seq<string>): nat
  {
    if |values| == 0 then 1 else Count(t.formats, (x: Lookup) => x.id == p.formatId && x.name in values)
  }

  /** An integer column compared with a string value, as MySQL converts it. */
  predicate NumberIn(x: int, values: seq<string>)
  {
    exists k :: 0 <= k < |values| && SqlNumber(values[k]) == x
  }

  /** Older search: rows of `JOIN post_badges` whose `badge_id` is one of the values. */
  function LegacyBadgeFactor(t: Store, p: PostRow, values: seq<string>): nat
  {
    if |values| == 0 then 1 else Count(t.postBadges, (pb: PostBadge) => pb.postId == p.id && NumberIn(pb.badgeId, values))
  }

  function LegacyTagFactor(t: Store, p: PostRow, values: seq<string>): nat
  {
    if |values| == 0 then 1 else Count(t.postTags, (pt: PostTag) => pt.postId == p.id && NumberIn(pt.tagId, values))
  }

  function Category(c: Ctx, p: PostRow): nat
  {
    var q := c.q;
    if c.v.Legacy? then
      if (|q.types| == 0 || NumberIn(p.typeId, q.types)) && (|q.formats| == 0 || NumberIn(p.formatId, q.formats))
      then Mul(LegacyBadgeFactor(c.t, p, q.badges), LegacyTagFactor(c.t, p, q.tags))
      else 0
    else
      Mul(Mul(BadgeFactor(c.t, p, q.badges), TypeFactor(c.t, p, q.types)),
          Mul(FormatFactor(c.t, p, q.formats), TagFactor(c.t, p, q.tags)))
  }

  /** `deleted` and `hidden` must equal the requested flags. */
  predicate FlagsMatch(q: Query, p: PostRow)
  {
    p.deleted == q.deleted && p.hidden == q.hidden
  }

  /** `title LIKE '%keyword%'` of a title-only search. */
  predicate TitleOk(c: Ctx, p: PostRow)
  {
    c.v != Current(true) || ContainsCI(p.title, c.q.keyword)
  }

  /** Joined rows the post contributes per posting row (or per itself, without a keyword). */
  function Mult(c: Ctx, p: PostRow): nat
  {
    if FlagsMatch(c.q, p) && TitleOk(c, p) then Mul(Visibility(c.t, p, c.caller), Category(c, p)) else 0
  }

  /** Anything the search admits is visible to the caller, carries the requested flags, and matches
      every category filter. */
  lemma AdmittedMeans(c: Ctx, p: PostRow)
    requires Mult(c, p) > 0
    ensures Visibility(c.t, p, c.caller) > 0 && FlagsMatch(c.q, p) && TitleOk(c, p) && Category(c, p) > 0
  {
  }

  /** In the current search two different badge values on one query match no post, since each
      joined row has one name. */
  lemma TwoBadgesMatchNothing(c: Ctx, p: PostRow, k1: nat, k2: nat)
    requires c.v.Current?
    requires k1 < |c.q.badges| && k2 < |c.q.badges| && c.q.badges[k1] != c.q.badges[k2]
    ensures Mult(c, p) == 0
  {
    var values := c.q.badges;
    forall pb: PostBadge ensures Count(c.t.badges, (b: Badge) => b.id == pb.badgeId && NamedAll(b.name, values)) == 0 {
      forall i | 0 <= i < |c.t.badges| ensures !NamedAll(c.t.badges[i].name, values) {
        if values[k1] == c.t.badges[i].name {
          assert values[k2] != c.t.badges[i].name;
        }
      }
    }
    assert BadgeFactor(c.t, p, values) == 0;
  }

  /** Types are alternatives: with type values given, a post passes iff a `types` row with its
      `type_id` carries one of the names. */
  lemma TypesAreAlternatives(t: Store, p: PostRow, values: seq<string>)
    requires |values| > 0
    ensures TypeFactor(t, p, values) > 0 <==>
            exists i :: 0 <= i < |t.types| && t.types[i].id == p.typeId && t.types[i].name in values
  {
  }

  /** Older search: category values are ids, and a post passes the badge filter iff one of its
      badges has one of them. */
  lemma LegacyBadgesAreAlternatives(t: Store, p: PostRow, values: seq<string>)
    requires |values| > 0
    ensures LegacyBadgeFactor(t, p, values) > 0 <==>
            exists i :: 0 <= i < |t.postBadges| && t.postBadges[i].postId == p.id && NumberIn(t.postBadges[i].badgeId, values)
  {
  }

  // ---------------------------------------------------------------- keyword search

  function HasKeyword(c: Ctx): bool
  {
    if c.v.Legacy? then Truthy(c.q.keyword) else c.q.keyword != ""
  }

  /** The terms as stored in `post_indexes.word`: md5-hashed when encryption is on. */
  function Hashed(c: Ctx): (hw: seq<string>)
    ensures |hw| == |c.words|
  {
    if c.cfg.useEncryption then seq(|c.words|, i requires 0 <= i < |c.words| => c.cfg.md5(c.words[i])) else c.words
  }

  /** The word filter: none in a title-only search or for an empty term list (no condition is
      added), otherwise the posting's word must be one of the terms. */
  predicate WordOk(c: Ctx, pi: PostIndex)
  {
    c.v == Current(true) || |c.words| == 0 || pi.word in Hashed(c)
  }

  function PostRowMult(c: Ctx, pid: int): PostRow -> nat
  {
    (p: PostRow) => if p.id == pid then Mult(c, p) else 0
  }

  /** Rows of `JOIN posts` for a posting of post `pid`. */
  function PostMult(c: Ctx, pid: int): nat
  {
    Total(c.t.posts, PostRowMult(c, pid))
  }

  /** A posting row in the group of `pid` that passes the word filter. */
  function InGroup(c: Ctx, pid: int): PostIndex -> bool
  {
    (pi: PostIndex) => pi.postId == pid && WordOk(c, pi)
  }

  function GroupRow(c: Ctx, pid: int): PostIndex -> nat
  {
    (pi: PostIndex) => if pi.postId == pid && WordOk(c, pi) then PostMult(c, pid) else 0
  }

  /** `count(*)` of the group of post `pid`. */
  function GroupCount(c: Ctx, pid: int): nat
  {
    Total(c.t.postIndexes, GroupRow(c, pid))
  }

  /** `sum(weight)` of the group of post `pid`. */
  function GroupWeight(c: Ctx, pid: int): int
  {
    SumInt(c.t.postIndexes, (pi: PostIndex) => if InGroup(c, pid)(pi) then PostMult(c, pid) * pi.weight else 0)
  }

  /** The `HAVING count(*) >= |terms|` of an AND search, skipped when the keyword holds `or` in any
      case and in a title-only search. */
  predicate HavingOk(c: Ctx, n: nat)
  {
    c.v == Current(true) || ContainsCI(c.q.keyword, "or") || n >= |c.words|
  }

  function PostingIds(t: Store): (ids: seq<int>)
    ensures |ids| == |t.postIndexes| && forall i :: 0 <= i < |ids| ==> ids[i] == t.postIndexes[i].postId
  {
    seq(|t.postIndexes|, i requires 0 <= i < |t.postIndexes| => t.postIndexes[i].postId)
  }

  predicate Kept(c: Ctx, pid: int)
  {
    GroupCount(c, pid) > 0 && HavingOk(c, GroupCount(c, pid))
  }

  /** The groups of `GROUP BY post_indexes.post_id` that survive, in order of first posting. */
  function Groups(c: Ctx): seq<int>
  {
    Filter(Dedup(PostingIds(c.t)), (pid: int) => Kept(c, pid))
  }

  function GroupHits(c: Ctx, pids: seq<int>): seq<Hit>
  {
    HitsOf(c.t.posts, pids, (pid: int) => GroupWeight(c, pid))
  }

  /** One row per listed id that has a post row, with that post's weight. */
  function HitsOf(posts: seq<PostRow>, pids: seq<int>, weight: int -> int): seq<Hit>
    decreases |pids|
  {
    if |pids| == 0 then []
    else
      (match FindPost(posts, pids[0])
       case None => []
       case Some(k) => [Hit(posts[k], weight(pids[0]))])
      + HitsOf(posts, pids[1..], weight)
  }

  /** Every row is a post row whose id is listed. */
  lemma {:induction false} HitsOfListed(posts: seq<PostRow>, pids: seq<int>, weight: int -> int)
    ensures forall h :: h in HitsOf(posts, pids, weight) ==> h.post in posts && h.post.id in pids
    decreases |pids|
  {
    if |pids| > 0 {
      HitsOfListed(posts, pids[1..], weight);
      var rest := HitsOf(posts, pids[1..], weight);
      forall h | h in rest ensures h.post.id in pids {
        var m :| 0 <= m < |pids[1..]| && pids[1..][m] == h.post.id;
        assert pids[m + 1] == h.post.id;
      }
    }
  }

  /** Listed ids without duplicates give rows of different posts. */
  lemma {:induction false} HitsOfDistinct(posts: seq<PostRow>, pids: seq<int>, weight: int -> int)
    requires NoDup(pids)
    ensures forall i, j :: 0 <= i < j < |HitsOf(posts, pids, weight)| ==>
              HitsOf(posts, pids, weight)[i].post.id != HitsOf(posts, pids, weight)[j].post.id
    decreases |pids|
  {
    if |pids| > 0 {
      var t := pids[1..];
      assert NoDup(t) by {
        forall i, j | 0 <= i < j < |t| ensures t[i] != t[j] {
          assert t[i] == pids[i + 1] && t[j] == pids[j + 1];
        }
      }
      HitsOfDistinct(posts, t, weight);
      HitsOfListed(posts, t, weight);
      var rest := HitsOf(posts, t, weight);
      assert pids[0] !in t by {
        forall m | 0 <= m < |t| ensures t[m] != pids[0] {
          assert t[m] == pids[m + 1];
        }
      }
      match FindPost(posts, pids[0])
      case None =>
      case Some(k) =>
        var r := [Hit(posts[k], weight(pids[0]))] + rest;
        forall i, j | 0 <= i < j < |r| ensures r[i].post.id != r[j].post.id {
          assert r[j] == rest[j - 1] && r[j] in rest;
          if i > 0 {
            assert r[i] == rest[i - 1];
          }
        }
    }
  }

  /** A post whose id is listed has its row, under unique post ids. */
  lemma {:induction false} HitsOfComplete(posts: seq<PostRow>, pids: seq<int>, weight: int -> int, k: nat)
    requires UniquePostIds(posts) && k < |posts| && posts[k].id in pids
    ensures Hit(posts[k], weight(posts[k].id)) in HitsOf(posts, pids, weight)
    decreases |pids|
  {
    var pid := posts[k].id;
    if pids[0] == pid {
      var f := FindPost(posts, pid);
      assert f.Some?;
      assert f.value == k;
    } else {
      assert pid in pids[1..];
      HitsOfComplete(posts, pids[1..], weight, k);
    }
  }

  // ---------------------------------------------------------------- listing without a keyword

  function Repeat(h: Hit, n: nat): (r: seq<Hit>)
    ensures |r| == n && forall i :: 0 <= i < n ==> r[i] == h
  {
    seq(n, i => h)
  }

  /** `SELECT DISTINCT posts.*` is applied by the current search to non-admins only. */
  predicate Distinct(c: Ctx)
  {
    c.v.Current? && !c.caller.isAdmin
  }

  /** One row per joined row of each admitted post, or one per post under `DISTINCT`. */
  function ListedFrom(c: Ctx, posts: seq<PostRow>): seq<Hit>
  {
    ListedBy(posts, (p: PostRow) => Mult(c, p), Distinct(c))
  }

  /** The listing for a given number of joined rows per post. */
  function ListedBy(posts: seq<PostRow>, mult: PostRow -> nat, distinct: bool): seq<Hit>
    decreases |posts|
  {
    if |posts| == 0 then []
    else
      var m := mult(posts[0]);
      Repeat(Hit(posts[0], 0), if distinct && m > 1 then 1 else m) + ListedBy(posts[1..], mult, distinct)
  }

  function Unordered(c: Ctx): seq<Hit>
  {
    if HasKeyword(c) then GroupHits(c, Groups(c)) else ListedFrom(c, c.t.posts)
  }

  /** The search result, before pagination. */
  function Results(c: Ctx): seq<Hit>
  {
    SortHits(OrderFor(c.q.sort, HasKeyword(c)), Unordered(c))
  }

  // ---------------------------------------------------------------- result properties

  /** The listing holds exactly the posts that have joined rows. */
  lemma ListedFromAdmitted(c: Ctx, posts: seq<PostRow>)
    ensures forall h :: h in ListedFrom(c, posts) ==> h.post in posts && Mult(c, h.post) > 0
    ensures forall i :: 0 <= i < |posts| && Mult(c, posts[i]) > 0 ==> Hit(posts[i], 0) in ListedFrom(c, posts)
  {
    ListedBySound(posts, (p: PostRow) => Mult(c, p), Distinct(c));
    ListedByComplete(posts, (p: PostRow) => Mult(c, p), Distinct(c));
  }

  lemma {:induction false} ListedBySound(posts: seq<PostRow>, mult: PostRow -> nat, distinct: bool)
    ensures forall h :: h in ListedBy(posts, mult, distinct) ==> h.post in posts && mult(h.post) > 0
    decreases |posts|
  {
    if |posts| > 0 {
      ListedBySound(posts[1..], mult, distinct);
      var m := mult(posts[0]);
      var head := Repeat(Hit(posts[0], 0), if distinct && m > 1 then 1 else m);
      var rest := ListedBy(posts[1..], mult, distinct);
      assert ListedBy(posts, mult, distinct) == head + rest;
      forall h: Hit | h in head + rest ensures h.post in posts && mult(h.post) > 0 {
        if h in head {
          assert h == Hit(posts[0], 0);
        } else {
          assert h.post in posts[1..];
        }
      }
    }
  }

  lemma {:induction false} ListedByComplete(posts: seq<PostRow>, mult: PostRow -> nat, distinct: bool)
    ensures forall i :: 0 <= i < |posts| && mult(posts[i]) > 0 ==> Hit(posts[i], 0) in ListedBy(posts, mult, distinct)
    decreases |posts|
  {
    if |posts| > 0 {
      ListedByComplete(posts[1..], mult, distinct);
      var m := mult(posts[0]);
      var head := Repeat(Hit(posts[0], 0), if distinct && m > 1 then 1 else m);
      var rest := ListedBy(posts[1..], mult, distinct);
      assert ListedBy(posts, mult, distinct) == head + rest;
      forall i | 0 <= i < |posts| && mult(posts[i]) > 0 ensures Hit(posts[i], 0) in head + rest {
        if i == 0 {
          assert head[0] == Hit(posts[0], 0);
        } else {
          assert posts[i] == posts[1..][i - 1];
        }
      }
    }
  }

  /** A group that survives has a post row with its id that the filters admit. */
  lemma KeptHasAdmittedPost(c: Ctx, pid: int)
    requires GroupCount(c, pid) > 0
    ensures exists k :: 0 <= k < |c.t.posts| && c.t.posts[k].id == pid && Mult(c, c.t.posts[k]) > 0
  {
    var i :| 0 <= i < |c.t.postIndexes| && GroupRow(c, pid)(c.t.postIndexes[i]) != 0;
    assert PostMult(c, pid) > 0;
    var k :| 0 <= k < |c.t.posts| && PostRowMult(c, pid)(c.t.posts[k]) != 0;
  }

  lemma GroupHitsAdmitted(c: Ctx, pids: seq<int>)
    requires UniquePostIds(c.t.posts)
    requires forall i :: 0 <= i < |pids| ==> GroupCount(c, pids[i]) > 0
    ensures forall h :: h in GroupHits(c, pids) ==> h.post in c.t.posts && Mult(c, h.post) > 0
  {
    HitsOfListed(c.t.posts, pids, (pid: int) => GroupWeight(c, pid));
    forall h | h in GroupHits(c, pids) ensures Mult(c, h.post) > 0 {
      var m :| 0 <= m < |pids| && pids[m] == h.post.id;
      KeptHasAdmittedPost(c, pids[m]);
      var k' :| 0 <= k' < |c.t.posts| && c.t.posts[k'].id == pids[m] && Mult(c, c.t.posts[k']) > 0;
      var k :| 0 <= k < |c.t.posts| && c.t.posts[k] == h.post;
      assert c.t.posts[k].id == c.t.posts[k'].id;
      assert k == k';
    }
  }

  /** Every row of the result is an admitted post: visible to the caller, with the requested
      `deleted` and `hidden` flags and matching every category filter. */
  lemma ResultsAdmitted(c: Ctx)
    requires UniquePostIds(c.t.posts)
    ensures forall h :: h in Results(c) ==> h.post in c.t.posts && Mult(c, h.post) > 0
  {
    var o := OrderFor(c.q.sort, HasKeyword(c));
    SortHitsCorrect(o, Unordered(c));
    forall h | h in Results(c) ensures h in Unordered(c) {
      assert h in multiset(Results(c));
    }
    if HasKeyword(c) {
      GroupHitsAdmitted(c, Groups(c));
    } else {
      ListedFromAdmitted(c, c.t.posts);
    }
  }

  /** Without a keyword every admitted post is listed. */
  lemma ListingComplete(c: Ctx, i: nat)
    requires !HasKeyword(c) && i < |c.t.posts| && Mult(c, c.t.posts[i]) > 0
    ensures Hit(c.t.posts[i], 0) in Results(c)
  {
    ListedFromAdmitted(c, c.t.posts);
    var o := OrderFor(c.q.sort, HasKeyword(c));
    SortHitsCorrect(o, Unordered(c));
    assert Hit(c.t.posts[i], 0) in multiset(Unordered(c));
  }

  /** The result follows the order the sort key selects and holds exactly the filtered rows. */
  lemma ResultsOrdered(c: Ctx)
    ensures Sorted(OrderFor(c.q.sort, HasKeyword(c)), Results(c))
    ensures multiset(Results(c)) == multiset(Unordered(c))
  {
    SortHitsCorrect(OrderFor(c.q.sort, HasKeyword(c)), Unordered(c));
  }

  /** The selected words a keyword-search group counts are the words of its postings. */
  function WordOf(pi: PostIndex): string
  {
    pi.word
  }

  /** The index holds each word of a post at most once. */
  predicate DistinctPostingWords(t: Store, pid: int)
  {
    forall i, j :: 0 <= i < j < |t.postIndexes| && t.postIndexes[i].postId == pid && t.postIndexes[j].postId == pid ==>
                   t.postIndexes[i].word != t.postIndexes[j].word
  }

  /** For an admin without category filters each posting of a post joins its post row once. */
  lemma SinglePostJoinsOnce(c: Ctx, k: nat)
    requires UniquePostIds(c.t.posts) && k < |c.t.posts|
    requires c.caller.isAdmin && c.v != Current(true) && FlagsMatch(c.q, c.t.posts[k])
    requires c.q.badges == [] && c.q.tags == [] && c.q.types == [] && c.q.formats == []
    ensures PostMult(c, c.t.posts[k].id) == 1
  {
    var pid := c.t.posts[k].id;
    forall j | 0 <= j < |c.t.posts| && j != k ensures PostRowMult(c, pid)(c.t.posts[j]) == 0 {
      if j < k {
        assert c.t.posts[j].id != c.t.posts[k].id;
      } else {
        assert c.t.posts[k].id != c.t.posts[j].id;
      }
    }
    TotalSingle(c.t.posts, PostRowMult(c, pid), k);
    assert Category(c, c.t.posts[k]) == 1;
  }

  /** The words a group counts: those of the post's postings that pass the word filter. */
  function GroupWords(c: Ctx, pid: int): set<string>
  {
    KeysWhere(c.t.postIndexes, InGroup(c, pid), WordOf)
  }

  lemma GroupCountIsWords(c: Ctx, pid: int)
    requires DistinctPostingWords(c.t, pid) && PostMult(c, pid) == 1
    ensures GroupCount(c, pid) == |GroupWords(c, pid)|
  {
    TotalOfIndicators(c.t.postIndexes, GroupRow(c, pid), InGroup(c, pid));
    CountDistinctKeys(c.t.postIndexes, InGroup(c, pid), WordOf);
  }

  lemma GroupWordsAreTerms(c: Ctx, pid: int)
    requires c.v != Current(true) && |c.words| > 0
    ensures GroupWords(c, pid) <= Elems(Hashed(c))
    ensures forall k :: 0 <= k < |Hashed(c)| ==>
              (Hashed(c)[k] in GroupWords(c, pid) <==>
               exists i :: 0 <= i < |c.t.postIndexes| && c.t.postIndexes[i].postId == pid &&
                           c.t.postIndexes[i].word == Hashed(c)[k])
  {
    var pis := c.t.postIndexes;
    forall k | 0 <= k < |Hashed(c)| && exists i :: 0 <= i < |pis| && pis[i].postId == pid && pis[i].word == Hashed(c)[k]
      ensures Hashed(c)[k] in GroupWords(c, pid)
    {
      var i :| 0 <= i < |pis| && pis[i].postId == pid && pis[i].word == Hashed(c)[k];
      assert InGroup(c, pid)(pis[i]);
    }
  }

  /** Every hashed term is among the indexed words of post `pid`. */
  predicate EveryTermIndexed(c: Ctx, pid: int)
  {
    forall k :: 0 <= k < |Hashed(c)| ==>
      exists i :: 0 <= i < |c.t.postIndexes| && c.t.postIndexes[i].postId == pid &&
                  c.t.postIndexes[i].word == Hashed(c)[k]
  }

  /** An AND search (no `or` in the keyword) keeps a post whose postings join once exactly when
      every hashed term is one of its indexed words. */
  lemma AndSearchNeedsEveryTerm(c: Ctx, pid: int)
    requires c.v != Current(true) && |c.words| > 0 && !ContainsCI(c.q.keyword, "or")
    requires NoDup(Hashed(c)) && DistinctPostingWords(c.t, pid) && PostMult(c, pid) == 1
    ensures Kept(c, pid) <==> EveryTermIndexed(c, pid)
  {
    GroupCountIsWords(c, pid);
    GroupWordsAreTerms(c, pid);
    EveryTermInGroup(c, pid);
    AllTermsByCount(GroupWords(c, pid), Hashed(c));
    KeptByCount(c, pid);
  }

  /** The `count(*)` of an AND search counts joined rows, not words. A post whose row joins as many
      times as there are terms is kept on a single matching posting, whichever terms it lacks. For a
      user who is not an administrator that happens when enough of the post's permission rows pass
      the visibility joins. */
  lemma RepeatedJoinKeepsPartialMatch(c: Ctx, pid: int, i: nat)
    requires c.v != Current(true) && |c.words| > 0 && !ContainsCI(c.q.keyword, "or")
    requires i < |c.t.postIndexes| && c.t.postIndexes[i].postId == pid && c.t.postIndexes[i].word in Hashed(c)
    requires PostMult(c, pid) >= |c.words|
    ensures Kept(c, pid)
  {
    TotalAtLeast(c.t.postIndexes, GroupRow(c, pid), i);
  }

  /** Without `or` and outside a title-only search, a group is kept when it counts every term. */
  lemma KeptByCount(c: Ctx, pid: int)
    requires c.v != Current(true) && |c.words| > 0 && !ContainsCI(c.q.keyword, "or")
    ensures Kept(c, pid) <==> GroupCount(c, pid) >= |Hashed(c)|
  {
  }

  /** Every term is indexed for the post exactly when every term is one of its group's words. */
  lemma EveryTermInGroup(c: Ctx, pid: int)
    requires c.v != Current(true) && |c.words| > 0
    ensures EveryTermIndexed(c, pid) <==> forall k :: 0 <= k < |Hashed(c)| ==> Hashed(c)[k] in GroupWords(c, pid)
  {
    GroupWordsAreTerms(c, pid);
  }

  /** A set of distinct terms' elements holds all of them exactly when it is as large as the list. */
  lemma AllTermsByCount(w: set<string>, hw: seq<string>)
    requires NoDup(hw) && w <= Elems(hw)
    ensures |w| >= |hw| <==> forall k :: 0 <= k < |hw| ==> hw[k] in w
  {
    ElemsOfNoDup(hw);
    SubsetCard(w, Elems(hw));
    if |w| >= |hw| {
      SubsetFull(w, Elems(hw));
    }
    if forall k :: 0 <= k < |hw| ==> hw[k] in w {
      assert Elems(hw) <= w;
      assert w == Elems(hw);
    }
  }

  /** An OR search keeps a post whose postings join at all when one of them is a hashed term. */
  lemma OrSearchNeedsOneTerm(c: Ctx, pid: int)
    requires c.v != Current(true) && |c.words| > 0 && ContainsCI(c.q.keyword, "or") && PostMult(c, pid) > 0
    ensures Kept(c, pid) <==>
            exists i :: 0 <= i < |c.t.postIndexes| && c.t.postIndexes[i].postId == pid &&
                        c.t.postIndexes[i].word in Hashed(c)
  {
    assert GroupCount(c, pid) == Total(c.t.postIndexes, GroupRow(c, pid));
  }

  /** The surviving groups are the posts with postings whose group passes the filters. */
  lemma GroupMembership(c: Ctx, pid: int)
    ensures pid in Groups(c) <==>
            (exists i :: 0 <= i < |c.t.postIndexes| && c.t.postIndexes[i].postId == pid) && Kept(c, pid)
  {
    var ids := PostingIds(c.t);
    var d := Dedup(ids);
    if pid in Groups(c) {
      var k :| 0 <= k < |Groups(c)| && Groups(c)[k] == pid;
      assert pid in d;
      var i :| 0 <= i < |ids| && ids[i] == pid;
    }
    if exists i :: 0 <= i < |c.t.postIndexes| && c.t.postIndexes[i].postId == pid {
      var i :| 0 <= i < |c.t.postIndexes| && c.t.postIndexes[i].postId == pid;
      assert ids[i] == pid;
      var m :| 0 <= m < |d| && d[m] == pid;
    }
  }

  lemma GroupHitsComplete(c: Ctx, pids: seq<int>, k: nat)
    requires UniquePostIds(c.t.posts) && k < |c.t.posts| && c.t.posts[k].id in pids
    ensures Hit(c.t.posts[k], GroupWeight(c, c.t.posts[k].id)) in GroupHits(c, pids)
  {
    HitsOfComplete(c.t.posts, pids, (pid: int) => GroupWeight(c, pid), k);
  }

  /** A keyword search lists each post whose group survives, with the group's summed weight. */
  lemma KeywordSearchFinds(c: Ctx, k: nat, i: nat)
    requires HasKeyword(c) && UniquePostIds(c.t.posts) && k < |c.t.posts|
    requires i < |c.t.postIndexes| && c.t.postIndexes[i].postId == c.t.posts[k].id && Kept(c, c.t.posts[k].id)
    ensures Hit(c.t.posts[k], GroupWeight(c, c.t.posts[k].id)) in Results(c)
  {
    GroupMembership(c, c.t.posts[k].id);
    GroupHitsComplete(c, Groups(c), k);
    SortHitsCorrect(OrderFor(c.q.sort, HasKeyword(c)), Unordered(c));
    assert Hit(c.t.posts[k], GroupWeight(c, c.t.posts[k].id)) in multiset(Unordered(c));
  }

  predicate DistinctPosts(r: seq<Hit>)
  {
    forall i, j :: 0 <= i < j < |r| ==> r[i].post.id != r[j].post.id
  }

  lemma GroupHitsDistinct(c: Ctx, pids: seq<int>)
    requires NoDup(pids)
    ensures forall h :: h in GroupHits(c, pids) ==> h.post.id in pids
    ensures DistinctPosts(GroupHits(c, pids))
  {
    HitsOfListed(c.t.posts, pids, (pid: int) => GroupWeight(c, pid));
    HitsOfDistinct(c.t.posts, pids, (pid: int) => GroupWeight(c, pid));
  }

  /** A keyword search yields one row per post (`GROUP BY post_indexes.post_id`). */
  lemma KeywordRowsDistinct(c: Ctx)
    ensures DistinctPosts(GroupHits(c, Groups(c)))
  {
    FilterNoDup(Dedup(PostingIds(c.t)), (pid: int) => Kept(c, pid));
    GroupHitsDistinct(c, Groups(c));
  }

  /** The `or` test is a substring test: `history` makes a search an OR search. */
  lemma HistoryIsAnOrSearch()
    ensures ContainsCI("history", "or")
  {
    assert "history"[4..][..2] == "or";
    assert OccursAt("history", "or", 4, true);
  }

  // ---------------------------------------------------------------- entry points

  /** The posts of the result rows, which `getPostData` decorates. */
  function HitPosts(hits: seq<Hit>): (r: seq<PostRow>)
    ensures |r| == |hits| && forall i :: 0 <= i < |hits| ==> r[i] == hits[i].post
  {
    seq(|hits|, i requires 0 <= i < |hits| => hits[i].post)
  }

  /** `getSearchPostsNew`: the query read from the parameters, the filtered and ordered rows, and
      unless `titleOnly` the badges, tags, permissions and decrypted teaser of every row. */
  method GetSearchPostsNew(db: Database, params: seq<Param>, titleOnly: bool, caller: Caller, cfg: Config,
                           stem: string -> seq<string>) returns (hits: seq<Hit>, data: seq<PostData>)
    ensures var q := NewQuery(params);
            hits == Results(Ctx(db.tables, q, caller, cfg, if q.keyword != "" then stem(q.keyword) else [],
                                Current(titleOnly)))
    ensures titleOnly ==> data == []
    ensures !titleOnly ==> |data| == |hits| &&
                           forall i :: 0 <= i < |hits| ==> data[i] == Attached(db.tables, HitPosts(hits), i, cfg)
  {
    var q := ParseParams(params);
    var words: seq<string> := [];
    if q.keyword != "" {
      words := stem(q.keyword);
    }
    hits := Results(Ctx(db.tables, q, caller, cfg, words, Current(titleOnly)));
    data := [];
    if !titleOnly {
      data := GetPostData(db, HitPosts(hits), cfg);
    }
  }

  /** `getSearchPosts`: the older entry point, with the keyword given apart from the parameters. */
  method GetSearchPosts(db: Database, keyword: string, params: seq<Param>, caller: Caller, cfg: Config,
                        stem: string -> seq<string>) returns (hits: seq<Hit>)
    ensures var q := LegacyQuery(params, keyword);
            hits == Results(Ctx(db.tables, q, caller, cfg, if Truthy(keyword) then stem(keyword) else [], Legacy))
  {
    var q := ParseLegacyParams(params, keyword);
    var words: seq<string> := [];
    if Truthy(keyword) {
      words := stem(keyword);
    }
    hits := Results(Ctx(db.tables, q, caller, cfg, words, Legacy));
  }
}
