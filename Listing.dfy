/** `Post::getPostData`: the badges, tags and per-role permission markers attached to each post of a
    listing, fetched in one batch per table for all the posts and then split up post by post. */
module Listing {
  import opened Common
  import opened Strings
  import opened Schema

  /** A joined row tagged with the post it belongs to. */
  datatype Row<T> = Row(postId: int, data: T)

  /** `post_badges JOIN badges`: (name, image). */
  type BadgeRow = Row<(string, string)>
  /** `post_tags JOIN tags`: the tag name. */
  type TagRow = Row<string>
  /** `post_permissions JOIN roles JOIN permissions`: (permission constant, role name). */
  type PermRow = Row<(string, string)>

  /** A listed post: its row with the teaser decrypted, and the attached data. */
  datatype PostData = PostData(
    post: PostRow, badges: seq<BadgeRow>, tags: seq<TagRow>, permissions: map<string, string>)

  // ---------------------------------------------------------------- the batch queries

  function BadgesOf(pb: PostBadge, badges: seq<Badge>): (r: seq<BadgeRow>)
    ensures forall i :: 0 <= i < |r| ==> r[i].postId == pb.postId
  {
    if |badges| == 0 then []
    else (if badges[0].id == pb.badgeId then [Row(pb.postId, (badges[0].name, badges[0].image))] else [])
         + BadgesOf(pb, badges[1..])
  }

  /** `... WHERE post_badges.post_id IN ids`, in `post_badges` order. */
  function BadgeJoin(pbs: seq<PostBadge>, badges: seq<Badge>, ids: seq<int>): (r: seq<BadgeRow>)
    ensures forall i :: 0 <= i < |r| ==> r[i].postId in ids
  {
    if |pbs| == 0 then []
    else (if pbs[0].postId in ids then BadgesOf(pbs[0], badges) else []) + BadgeJoin(pbs[1..], badges, ids)
  }

  function TagsOf(pt: PostTag, tags: seq<Tag>): (r: seq<TagRow>)
    ensures forall i :: 0 <= i < |r| ==> r[i].postId == pt.postId
  {
    if |tags| == 0 then []
    else (if tags[0].id == pt.tagId then [Row(pt.postId, tags[0].name)] else []) + TagsOf(pt, tags[1..])
  }

  function TagJoin(pts: seq<PostTag>, tags: seq<Tag>, ids: seq<int>): (r: seq<TagRow>)
    ensures forall i :: 0 <= i < |r| ==> r[i].postId in ids
  {
    if |pts| == 0 then []
    else (if pts[0].postId in ids then TagsOf(pts[0], tags) else []) + TagJoin(pts[1..], tags, ids)
  }

  function ConstantsOf(pp: PostPermission, roleName: string, perms: seq<Permission>): (r: seq<PermRow>)
    ensures forall i :: 0 <= i < |r| ==> r[i].postId == pp.postId
  {
    if |perms| == 0 then []
    else (if perms[0].id == pp.permissionId then [Row(pp.postId, (perms[0].constant, roleName))] else [])
         + ConstantsOf(pp, roleName, perms[1..])
  }

  function RolesOf(pp: PostPermission, roles: seq<Role>, perms: seq<Permission>): (r: seq<PermRow>)
    ensures forall i :: 0 <= i < |r| ==> r[i].postId == pp.postId
  {
    if |roles| == 0 then []
    else (if roles[0].id == pp.roleId then ConstantsOf(pp, roles[0].name, perms) else [])
         + RolesOf(pp, roles[1..], perms)
  }

  function PermissionJoin(pps: seq<PostPermission>, roles: seq<Role>, perms: seq<Permission>, ids: seq<int>): (r: seq<PermRow>)
    ensures forall i :: 0 <= i < |r| ==> r[i].postId in ids
  {
    if |pps| == 0 then []
    else (if pps[0].postId in ids then RolesOf(pps[0], roles, perms) else []) + PermissionJoin(pps[1..], roles, perms, ids)
  }

  // ---------------------------------------------------------------- splitting per post

  /** The rows of one post, in order (the `if ($x->post_id == $post->id)` loops). */
  function OfPost<T>(rows: seq<Row<T>>, id: int): (r: seq<Row<T>>)
    ensures |r| <= |rows|
    ensures forall i :: 0 <= i < |r| ==> r[i].postId == id && r[i] in rows
    decreases |rows|
  {
    if |rows| == 0 then []
    else (if rows[0].postId == id then [rows[0]] else []) + OfPost(rows[1..], id)
  }

  lemma {:induction false} OfPostConcat<T>(a: seq<Row<T>>, b: seq<Row<T>>, id: int)
    ensures OfPost(a + b, id) == OfPost(a, id) + OfPost(b, id)
    decreases |a|
  {
    if |a| > 0 {
      assert (a + b)[1..] == a[1..] + b;
      assert (a + b)[0] == a[0];
      OfPostConcat(a[1..], b, id);
      var h := if a[0].postId == id then [a[0]] else [];
      assert OfPost(a + b, id) == h + (OfPost(a[1..], id) + OfPost(b, id));
      assert h + (OfPost(a[1..], id) + OfPost(b, id)) == (h + OfPost(a[1..], id)) + OfPost(b, id);
    } else {
      assert a + b == b;
    }
  }

  /** Rows that all belong to post `x` are kept whole by `OfPost(_, x)` and dropped by any other. */
  lemma {:induction false} OfPostUniform<T>(rows: seq<Row<T>>, x: int, id: int)
    requires forall i :: 0 <= i < |rows| ==> rows[i].postId == x
    ensures OfPost(rows, id) == if x == id then rows else []
    decreases |rows|
  {
    if |rows| > 0 {
      OfPostUniform(rows[1..], x, id);
      assert [rows[0]] + rows[1..] == rows;
    }
  }

  /** One loop step: the rows of a post among a longer prefix. */
  lemma OfPostSnoc<T>(rows: seq<Row<T>>, j: nat, id: int)
    requires j < |rows|
    ensures OfPost(rows[..j + 1], id) == OfPost(rows[..j], id) + (if rows[j].postId == id then [rows[j]] else [])
  {
    assert rows[..j + 1] == rows[..j] + [rows[j]];
    OfPostConcat(rows[..j], [rows[j]], id);
    assert [rows[j]][1..] == [];
  }

  /** Splitting the batch query gives exactly the single-post query, for every post in the batch. */
  lemma {:induction false} BadgePartition(pbs: seq<PostBadge>, badges: seq<Badge>, ids: seq<int>, id: int)
    requires id in ids
    ensures OfPost(BadgeJoin(pbs, badges, ids), id) == BadgeJoin(pbs, badges, [id])
    decreases |pbs|
  {
    if |pbs| > 0 {
      var here := if pbs[0].postId in ids then BadgesOf(pbs[0], badges) else [];
      OfPostConcat(here, BadgeJoin(pbs[1..], badges, ids), id);
      OfPostUniform(here, pbs[0].postId, id);
      BadgePartition(pbs[1..], badges, ids, id);
    }
  }

  lemma {:induction false} TagPartition(pts: seq<PostTag>, tags: seq<Tag>, ids: seq<int>, id: int)
    requires id in ids
    ensures OfPost(TagJoin(pts, tags, ids), id) == TagJoin(pts, tags, [id])
    decreases |pts|
  {
    if |pts| > 0 {
      var here := if pts[0].postId in ids then TagsOf(pts[0], tags) else [];
      OfPostConcat(here, TagJoin(pts[1..], tags, ids), id);
      OfPostUniform(here, pts[0].postId, id);
      TagPartition(pts[1..], tags, ids, id);
    }
  }

  lemma {:induction false} PermissionPartition(pps: seq<PostPermission>, roles: seq<Role>, perms: seq<Permission>,
                                               ids: seq<int>, id: int)
    requires id in ids
    ensures OfPost(PermissionJoin(pps, roles, perms, ids), id) == PermissionJoin(pps, roles, perms, [id])
    decreases |pps|
  {
    if |pps| > 0 {
      var here := if pps[0].postId in ids then RolesOf(pps[0], roles, perms) else [];
      OfPostConcat(here, PermissionJoin(pps[1..], roles, perms, ids), id);
      OfPostUniform(here, pps[0].postId, id);
      PermissionPartition(pps[1..], roles, perms, ids, id);
    }
  }

  // ---------------------------------------------------------------- permission markers

  /** `R` for `read`, `W` for `write`, nothing for any other constant. */
  function Marker(constant: string): string
  {
    if constant == "read" then "R" else if constant == "write" then "W" else ""
  }

  /** The role-name to markers map built from the rows of post `id`, processed in order: every such
      row creates its role's entry, and read and write rows append their marker. */
  function MarkersOf(rows: seq<PermRow>, id: int): map<string, string>
    decreases |rows|
  {
    if |rows| == 0 then map[]
    else AddMarker(MarkersOf(rows[..|rows| - 1], id), rows[|rows| - 1], id)
  }

  /** One row's step: a row of post `id` creates its role's entry and appends its marker. */
  function AddMarker(m: map<string, string>, r: PermRow, id: int): map<string, string>
  {
    if r.postId != id then m
    else m[r.data.1 := (if r.data.1 in m then m[r.data.1] else "") + Marker(r.data.0)]
  }

  lemma MarkersAppend(init: seq<PermRow>, r: PermRow, id: int)
    ensures MarkersOf(init + [r], id) == AddMarker(MarkersOf(init, id), r, id)
  {
    assert (init + [r])[..|init|] == init;
  }

  /** Number of rows of post `id` that grant `constant` to `role`. */
  function CountGrants(rows: seq<PermRow>, id: int, role: string, constant: string): nat
    decreases |rows|
  {
    if |rows| == 0 then 0
    else
      var r := rows[|rows| - 1];
      CountGrants(rows[..|rows| - 1], id, role, constant) + (if r == Row(id, (constant, role)) then 1 else 0)
  }

  /** The markers of a role, or none when it has no entry. */
  function EntryOf(m: map<string, string>, role: string): string
  {
    if role in m then m[role] else ""
  }

  /** A role has an entry exactly when some row of the post names it. */
  lemma {:induction false} MarkersDomain(rows: seq<PermRow>, id: int, role: string)
    ensures role in MarkersOf(rows, id) <==>
            exists i :: 0 <= i < |rows| && rows[i].postId == id && rows[i].data.1 == role
    decreases |rows|
  {
    if |rows| > 0 {
      var n := |rows| - 1;
      MarkersDomain(rows[..n], id, role);
      assert forall i :: 0 <= i < n ==> rows[..n][i] == rows[i];
      if rows[n].postId == id && rows[n].data.1 == role {
        assert rows[n].postId == id && rows[n].data.1 == role;
      }
    }
  }

  /** The last row changes a role's markers only when it is a row of the post for that role, and
      then appends its marker. */
  lemma MarkersSnoc(rows: seq<PermRow>, id: int, role: string)
    requires |rows| > 0
    ensures var r := rows[|rows| - 1];
            EntryOf(MarkersOf(rows, id), role) ==
            EntryOf(MarkersOf(rows[..|rows| - 1], id), role) +
            (if r.postId == id && r.data.1 == role then Marker(r.data.0) else "")
  {
  }

  /** A marker counts one `R` for a read row and one `W` for a write row, and holds nothing else. */
  lemma MarkerCounts(r: PermRow, id: int, role: string)
    requires r.postId == id && r.data.1 == role
    ensures CountChar(Marker(r.data.0), 'R') == (if r == Row(id, ("read", role)) then 1 else 0)
    ensures CountChar(Marker(r.data.0), 'W') == (if r == Row(id, ("write", role)) then 1 else 0)
    ensures forall j :: 0 <= j < |Marker(r.data.0)| ==> Marker(r.data.0)[j] == 'R' || Marker(r.data.0)[j] == 'W'
  {
  }

  /** A role's markers hold only `R` and `W`. */
  lemma {:induction false} MarkersChars(rows: seq<PermRow>, id: int, role: string)
    ensures var e := EntryOf(MarkersOf(rows, id), role);
            forall j :: 0 <= j < |e| ==> e[j] == 'R' || e[j] == 'W'
    decreases |rows|
  {
    if |rows| > 0 {
      var n := |rows| - 1;
      var r := rows[n];
      MarkersChars(rows[..n], id, role);
      MarkersSnoc(rows, id, role);
      var e0 := EntryOf(MarkersOf(rows[..n], id), role);
      var mk := if r.postId == id && r.data.1 == role then Marker(r.data.0) else "";
      if r.postId == id && r.data.1 == role {
        MarkerCounts(r, id, role);
      }
      var e := e0 + mk;
      forall j | 0 <= j < |e| ensures e[j] == 'R' || e[j] == 'W' {
        if j >= |e0| {
          assert e[j] == mk[j - |e0|];
        }
      }
    }
  }

  /** The marker a constant stands for. */
  predicate MarkerOf(c: char, constant: string)
  {
    (c == 'R' && constant == "read") || (c == 'W' && constant == "write")
  }

  /** A role's markers count one `R` per read row and one `W` per write row of that role. */
  lemma {:induction false} MarkersCount(rows: seq<PermRow>, id: int, role: string, c: char, constant: string)
    requires MarkerOf(c, constant)
    ensures CountChar(EntryOf(MarkersOf(rows, id), role), c) == CountGrants(rows, id, role, constant)
    decreases |rows|
  {
    if |rows| > 0 {
      var n := |rows| - 1;
      var r := rows[n];
      MarkersCount(rows[..n], id, role, c, constant);
      MarkersSnoc(rows, id, role);
      var mk := if r.postId == id && r.data.1 == role then Marker(r.data.0) else "";
      CountCharConcat(EntryOf(MarkersOf(rows[..n], id), role), mk, c);
      if r.postId == id && r.data.1 == role {
        MarkerCounts(r, id, role);
      }
    }
  }

  /** A role has an entry exactly when some row of the post names it; its entry holds only `R` and
      `W`, one `R` per read row and one `W` per write row of that role. */
  lemma MarkersMeaning(rows: seq<PermRow>, id: int, role: string)
    ensures var m := MarkersOf(rows, id);
            && (role in m <==> exists i :: 0 <= i < |rows| && rows[i].postId == id && rows[i].data.1 == role)
            && (role in m ==>
                  && (forall j :: 0 <= j < |m[role]| ==> m[role][j] == 'R' || m[role][j] == 'W')
                  && CountChar(m[role], 'R') == CountGrants(rows, id, role, "read")
                  && CountChar(m[role], 'W') == CountGrants(rows, id, role, "write"))
            && (role !in m ==> CountGrants(rows, id, role, "read") == 0 && CountGrants(rows, id, role, "write") == 0)
  {
    MarkersDomain(rows, id, role);
    MarkersChars(rows, id, role);
    MarkersCount(rows, id, role, 'R', "read");
    MarkersCount(rows, id, role, 'W', "write");
  }

  /** The `foreach` that collects one post's rows from a batch. */
  method CollectRows<T>(rows: seq<Row<T>>, id: int) returns (r: seq<Row<T>>)
    ensures r == OfPost(rows, id)
  {
    r := [];
    var j := 0;
    while j < |rows|
      invariant j <= |rows| && r == OfPost(rows[..j], id)
    {
      OfPostSnoc(rows, j, id);
      if rows[j].postId == id {
        r := r + [rows[j]];
      }
      j := j + 1;
    }
    assert rows[..j] == rows;
  }

  /** The `foreach` that builds one post's role-name to markers map. */
  method CollectMarkers(rows: seq<PermRow>, id: int) returns (m: map<string, string>)
    ensures m == MarkersOf(rows, id)
  {
    m := map[];
    var j := 0;
    while j < |rows|
      invariant j <= |rows| && m == MarkersOf(rows[..j], id)
    {
      var r := rows[j];
      assert rows[..j + 1][..j] == rows[..j];
      assert rows[..j + 1][j] == r;
      ghost var prior := if r.postId == id && r.data.1 in m then m[r.data.1] else "";
      if r.postId == id {
        var role := r.data.1;
        assert MarkersOf(rows[..j + 1], id) == m[role := prior + Marker(r.data.0)];
        if role !in m {
          m := m[role := ""];
        }
        if r.data.0 == "read" {
          m := m[role := m[role] + "R"];
        } else if r.data.0 == "write" {
          m := m[role := m[role] + "W"];
        } else {
          assert prior + Marker(r.data.0) == prior;
        }
      }
      j := j + 1;
    }
    assert rows[..j] == rows;
  }

  /** One more row keeps the markers of the whole batch equal to those of the post's own rows. */
  lemma OwnRowsStep(init: seq<PermRow>, r: PermRow, id: int)
    requires MarkersOf(init, id) == MarkersOf(OfPost(init, id), id)
    ensures MarkersOf(init + [r], id) == MarkersOf(OfPost(init + [r], id), id)
  {
    OfPostConcat(init, [r], id);
    assert [r][1..] == [];
    MarkersAppend(init, r, id);
    if r.postId == id {
      MarkersAppend(OfPost(init, id), r, id);
    } else {
      assert OfPost(init + [r], id) == OfPost(init, id);
    }
  }

  /** Only the rows of the post itself shape its markers. */
  lemma {:induction false} MarkersOnlyOwnRows(rows: seq<PermRow>, id: int)
    ensures MarkersOf(rows, id) == MarkersOf(OfPost(rows, id), id)
    decreases |rows|
  {
    if |rows| > 0 {
      var n := |rows| - 1;
      MarkersOnlyOwnRows(rows[..n], id);
      OwnRowsStep(rows[..n], rows[n], id);
      assert rows[..n] + [rows[n]] == rows;
    }
  }

  // ---------------------------------------------------------------- getPostData

  /** What `getPostData` attaches to the post at position `i`, in terms of the batch rows. */
  function Attached(t: Store, posts: seq<PostRow>, i: nat, cfg: Config): PostData
    requires i < |posts|
  {
    var ids := Ids(posts, PostKey);
    var p := posts[i];
    PostData(p.(teaser := cfg.decrypt(p.teaser)),
             OfPost(BadgeJoin(t.postBadges, t.badges, ids), p.id),
             OfPost(TagJoin(t.postTags, t.tags, ids), p.id),
             MarkersOf(PermissionJoin(t.postPermissions, t.roles, t.permissions, ids), p.id))
  }

  /** The `foreach` that gathers the ids of the listed posts. */
  method CollectIds(posts: seq<PostRow>) returns (ids: seq<int>)
    ensures ids == Ids(posts, PostKey)
  {
    ids := [];
    var n := 0;
    while n < |posts|
      invariant n <= |posts|
      invariant ids == Ids(posts, PostKey)[..n]
    {
      ids := ids + [posts[n].id];
      n := n + 1;
    }
  }

  /** Runs the three batch queries, then fills in each post from the rows that belong to it. */
  method GetPostData(db: Database, posts: seq<PostRow>, cfg: Config) returns (out: seq<PostData>)
    ensures |out| == |posts|
    ensures forall i :: 0 <= i < |posts| ==> out[i] == Attached(db.tables, posts, i, cfg)
  {
    var ids := CollectIds(posts);
    var t := db.tables;
    var badgeRows := BadgeJoin(t.postBadges, t.badges, ids);
    var tagRows := TagJoin(t.postTags, t.tags, ids);
    var permRows := PermissionJoin(t.postPermissions, t.roles, t.permissions, ids);

    out := [];
    var i := 0;
    while i < |posts|
      invariant i <= |posts| && |out| == i
      invariant forall k :: 0 <= k < i ==> out[k] == Attached(t, posts, k, cfg)
    {
      var p := posts[i];
      var pb := CollectRows(badgeRows, p.id);
      var pt := CollectRows(tagRows, p.id);
      var pm := CollectMarkers(permRows, p.id);
      assert PostData(p.(teaser := cfg.decrypt(p.teaser)), pb, pt, pm) == Attached(t, posts, i, cfg);
      out := out + [PostData(p.(teaser := cfg.decrypt(p.teaser)), pb, pt, pm)];
      i := i + 1;
    }
  }

  /** The markers `getPostData` attaches to a listed post are those its own `permissions()` builds. */
  lemma ListingMatchesPostPermissions(t: Store, posts: seq<PostRow>, i: nat, cfg: Config)
    requires i < |posts|
    ensures Attached(t, posts, i, cfg).permissions ==
            MarkersOf(PermissionJoin(t.postPermissions, t.roles, t.permissions, [posts[i].id]), posts[i].id)
    ensures Attached(t, posts, i, cfg).badges == BadgeJoin(t.postBadges, t.badges, [posts[i].id])
    ensures Attached(t, posts, i, cfg).tags == TagJoin(t.postTags, t.tags, [posts[i].id])
  {
    var ids := Ids(posts, PostKey);
    var id := posts[i].id;
    assert ids[i] == id;
    var rows := PermissionJoin(t.postPermissions, t.roles, t.permissions, ids);
    MarkersOnlyOwnRows(rows, id);
    PermissionPartition(t.postPermissions, t.roles, t.permissions, ids, id);
    MarkersOnlyOwnRows(PermissionJoin(t.postPermissions, t.roles, t.permissions, [id]), id);
    OfPostUniform(PermissionJoin(t.postPermissions, t.roles, t.permissions, [id]), id, id);
    BadgePartition(t.postBadges, t.badges, ids, id);
    TagPartition(t.postTags, t.tags, ids, id);
  }
}
