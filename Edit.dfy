/** The edit controller's actions that change a post: saving its content as a draft or a commit,
    the organisation, permission and advanced settings forms, deletion and undeletion, and
    creation. Each action is a method on the database connection; the tables it leaves behind are
    given by a function of the tables before, and the lemmas below state what those functions
    promise. */
module Edit {
  import opened Common
  import opened Strings
  import opened Regex
  import opened Schema
  import opened Permissions
  import opened Teaser
  import opened PostModel
  import opened Listing

  /** What an action answers: `Response::notFound()`, `Response::denied()`, a plain text body, a
      redirect to the edit page, or a runtime error the action does not catch. */
  datatype Response = NotFound | Denied | Text(body: string) | RedirectToEdit(postId: int) | Failure

  /** `Input::get(name) == 'true'`; a missing input is null, which never equals it. */
  predicate IsTrue(input: Option<string>)
  {
    input == Some("true")
  }

  /** The next auto-increment key: above every key in use. */
  function NextId(ids: seq<int>): (r: int)
    ensures forall i :: 0 <= i < |ids| ==> ids[i] < r
    ensures r >= 1
  {
    MaxOr(ids, 0) + 1
  }

  // ---------------------------------------------------------------- guards

  /** `hasPermission('write')` on a freshly loaded post. */
  predicate MayWrite(t: Store, p: PostRow, caller: Caller)
  {
    Grants(p.createdBy, caller, ResolvedPermissions(t, Some(p.id), caller.userId), "write")
  }

  /** The checks every post-editing action makes before it changes anything, in order: an ajax
      request, an existing post, write permission on it. `None` means all three pass. */
  function Guard(t: Store, id: int, ajax: bool, caller: Caller): Option<Response>
  {
    if !ajax then Some(NotFound)
    else match FindPost(t.posts, id)
      case None => Some(NotFound)
      case Some(k) => if MayWrite(t, t.posts[k], caller) then None else Some(Denied)
  }

  /** Not found for a non-ajax request or a missing post; denied unless the caller is an admin, the
      post's creator, or holds `write` on it through a role; otherwise the action proceeds. */
  lemma GuardRule(t: Store, id: int, ajax: bool, caller: Caller)
    ensures Guard(t, id, ajax, caller) == Some(NotFound) <==>
            !ajax || forall j :: 0 <= j < |t.posts| ==> t.posts[j].id != id
    ensures Guard(t, id, ajax, caller).None? <==>
            && ajax && FindPost(t.posts, id).Some?
            && (|| caller.isAdmin
                || t.posts[FindPost(t.posts, id).value].createdBy == caller.userId
                || exists i, j, k :: GrantRow(t, i, j, k, id, caller.userId, "write"))
  {
    assert Lower("write") == "write";
    if ajax && FindPost(t.posts, id).Some? {
      HasPermissionRule(t, t.posts[FindPost(t.posts, id).value], caller, "write");
    }
  }

  // ---------------------------------------------------------------- updatePost

  /** The uncommitted draft of `userId` on `postId`. */
  predicate IsDraft(r: Revision, postId: int, userId: int)
  {
    r.postId == postId && r.revision == 0 && r.createdBy == userId
  }

  /** `Revision::where(post_id, revision = 0, created_by)->first()`. */
  function FindDraft(revs: seq<Revision>, postId: int, userId: int): (r: Option<nat>)
    ensures r.Some? ==> r.value < |revs| && IsDraft(revs[r.value], postId, userId)
    ensures r.Some? ==> forall j :: 0 <= j < r.value ==> !IsDraft(revs[j], postId, userId)
    ensures r.None? ==> forall j :: 0 <= j < |revs| ==> !IsDraft(revs[j], postId, userId)
    decreases |revs|
  {
    if |revs| == 0 then None
    else if IsDraft(revs[0], postId, userId) then Some(0)
    else
      assert forall j :: 0 < j < |revs| ==> revs[j] == revs[1..][j - 1];
      match FindDraft(revs[1..], postId, userId)
      case None => None
      case Some(k) => Some(k + 1)
  }

  function RevisionNumbers(revs: seq<Revision>, postId: int): (r: seq<int>)
    ensures forall j :: 0 <= j < |revs| && revs[j].postId == postId ==> revs[j].revision in r
    ensures forall x :: x in r ==> exists j :: 0 <= j < |revs| && revs[j].postId == postId && revs[j].revision == x
    decreases |revs|
  {
    if |revs| == 0 then []
    else
      assert forall j :: 0 < j < |revs| ==> revs[j] == revs[1..][j - 1];
      (if revs[0].postId == postId then [revs[0].revision as int] else []) + RevisionNumbers(revs[1..], postId)
  }

  /** The post's highest revision number (`orderBy('revision', 'desc')->first()`), 0 without one. */
  function LastRevision(revs: seq<Revision>, postId: int): (n: nat)
    ensures forall j :: 0 <= j < |revs| && revs[j].postId == postId ==> revs[j].revision <= n
    ensures n == 0 || exists j :: 0 <= j < |revs| && revs[j].postId == postId && revs[j].revision == n
  {
    MaxOr(RevisionNumbers(revs, postId), 0)
  }

  /** Where `updatePost` saves: the editor's draft row, or a new row at the end. */
  function SavedIndex(revs: seq<Revision>, postId: int, userId: int): nat
  {
    match FindDraft(revs, postId, userId)
    case Some(k) => k
    case None => |revs|
  }

  /** The revisions after `updatePost` saves revision number `number` with body `body`: the
      editor's draft row is reused, otherwise a row is added with the post's title. */
  function SavedRevisions(revs: seq<Revision>, postId: int, title: string, userId: int, number: nat, body: string,
                          now: int): seq<Revision>
  {
    match FindDraft(revs, postId, userId)
    case Some(k) => revs[k := revs[k].(revision := number, content := body, createdAt := now)]
    case None => revs + [Revision(NextId(Ids(revs, RevisionKey)), postId, number, title, body, userId, now)]
  }

  /** The post after a commit: new encrypted content and teaser, the editor as `updated_by`, and
      the save's clock as `updated_at`. */
  function Committed(p: PostRow, content: string, teaser: string, userId: int, now: int, cfg: Config): PostRow
  {
    p.(content := cfg.encrypt(content), teaser := cfg.encrypt(teaser), updatedBy := userId, updatedAt := now)
  }

  /** The tables after `updatePost` passes its guards on the post at index `k`; `teaser` is the
      teaser generated from the content, which a commit stores. */
  function AfterUpdatePost(t: Store, k: nat, userId: int, autosave: bool, content: string, teaser: string, now: int,
                           cfg: Config): Store
    requires k < |t.posts|
  {
    var p := t.posts[k];
    var body := cfg.encrypt(content);
    if autosave then t.(revisions := SavedRevisions(t.revisions, p.id, p.title, userId, 0, body, now))
    else t.(posts := t.posts[k := Committed(p, content, teaser, userId, now, cfg)],
            revisions := SavedRevisions(t.revisions, p.id, p.title, userId, LastRevision(t.revisions, p.id) + 1, body, now))
  }

  /** The find-or-create of the editor's draft row and its save with the given number and body. */
  method SaveRevision(db: Database, postId: int, title: string, userId: int, number: nat, body: string, now: int)
    modifies db
    ensures db.tables == old(db.tables).(revisions := SavedRevisions(old(db.tables).revisions, postId, title, userId,
                                                                      number, body, now))
  {
    var revs := db.tables.revisions;
    var draft := FindDraft(revs, postId, userId);
    var rev: Revision;
    if draft.None? {
      rev := Revision(NextId(Ids(revs, RevisionKey)), postId, 0, title, "", userId, 0);
    } else {
      rev := revs[draft.value];
    }
    rev := rev.(revision := number, content := body, createdAt := now);
    if draft.None? {
      db.tables := db.tables.(revisions := revs + [rev]);
    } else {
      db.tables := db.tables.(revisions := revs[draft.value := rev]);
    }
  }

  /** The save of `updatePost` once its guards pass, on the post at index `k`. */
  method SavePost(db: Database, k: nat, userId: int, autosave: bool, content: string, teaser: string, now: int,
                  cfg: Config)
    requires k < |db.tables.posts|
    modifies db
    ensures db.tables == AfterUpdatePost(old(db.tables), k, userId, autosave, content, teaser, now, cfg)
  {
    var post := db.tables.posts[k];
    var body := cfg.encrypt(content);
    if autosave {
      SaveRevision(db, post.id, post.title, userId, 0, body, now);
    } else {
      ghost var t := db.tables;
      var committed := Committed(post, content, teaser, userId, now, cfg);
      var last := LastRevision(db.tables.revisions, post.id);
      db.tables := db.tables.(posts := db.tables.posts[k := committed]);
      ghost var t1 := db.tables;
      assert t1.revisions == t.revisions;
      SaveRevision(db, post.id, post.title, userId, last + 1, body, now);
      assert db.tables == t1.(revisions := SavedRevisions(t.revisions, post.id, post.title, userId, last + 1, body, now));
    }
  }

  /** `updatePost`: autosave (input `autosave` is `'true'`) stores the content on the editor's
      draft; otherwise the content and teaser are committed to the post and the draft becomes the
      next revision. */
  method UpdatePost(db: Database, id: int, ajax: bool, caller: Caller, autosave: Option<string>, content: string,
                    now: int, cfg: Config) returns (r: Response)
    modifies db
    ensures var g := Guard(old(db.tables), id, ajax, caller);
            g.Some? ==> r == g.value && db.tables == old(db.tables)
    ensures Guard(old(db.tables), id, ajax, caller).None? ==>
              r == Text("saved") &&
              db.tables == AfterUpdatePost(old(db.tables), FindPost(old(db.tables).posts, id).value, caller.userId,
                                           IsTrue(autosave), content, CreateTeaser(content, cfg), now, cfg)
  {
    var g := Guard(db.tables, id, ajax, caller);
    if g.Some? {
      return g.value;
    }
    var k := FindPost(db.tables.posts, id).value;
    var teaser := CreateTeaser(content, cfg);
    SavePost(db, k, caller.userId, IsTrue(autosave), content, teaser, now, cfg);
    r := Text("saved");
  }

  /** At most one draft per (post, editor). */
  predicate DraftsUnique(revs: seq<Revision>)
  {
    forall i, j :: 0 <= i < j < |revs| && revs[i].revision == 0 && revs[j].revision == 0 ==>
      revs[i].postId != revs[j].postId || revs[i].createdBy != revs[j].createdBy
  }

  lemma SavedRevisionsKeepDraftsUnique(revs: seq<Revision>, postId: int, title: string, userId: int, number: nat,
                                       body: string, now: int)
    requires DraftsUnique(revs)
    ensures DraftsUnique(SavedRevisions(revs, postId, title, userId, number, body, now))
  {
    var r := SavedRevisions(revs, postId, title, userId, number, body, now);
    match FindDraft(revs, postId, userId)
    case Some(k) =>
      forall i, j | 0 <= i < j < |r| && r[i].revision == 0 && r[j].revision == 0
        ensures r[i].postId != r[j].postId || r[i].createdBy != r[j].createdBy
      {
        assert r[i].postId == revs[i].postId && r[i].createdBy == revs[i].createdBy;
        assert r[j].postId == revs[j].postId && r[j].createdBy == revs[j].createdBy;
        if i != k && j != k {
          assert revs[i] == r[i] && revs[j] == r[j];
        }
      }
    case None =>
      forall i, j | 0 <= i < j < |r| && r[i].revision == 0 && r[j].revision == 0
        ensures r[i].postId != r[j].postId || r[i].createdBy != r[j].createdBy
      {
        if j == |revs| {
          assert !IsDraft(revs[i], postId, userId);
        } else {
          assert r[i] == revs[i] && r[j] == revs[j];
        }
      }
  }

  /** Saving never gives an editor a second draft of the same post. */
  lemma UpdatePostKeepsOneDraft(t: Store, k: nat, userId: int, autosave: bool, content: string, teaser: string, now: int,
                                cfg: Config)
    requires k < |t.posts| && DraftsUnique(t.revisions)
    ensures DraftsUnique(AfterUpdatePost(t, k, userId, autosave, content, teaser, now, cfg).revisions)
  {
    var p := t.posts[k];
    var n := if autosave then 0 else LastRevision(t.revisions, p.id) + 1;
    SavedRevisionsKeepDraftsUnique(t.revisions, p.id, p.title, userId, n, cfg.encrypt(content), now);
  }

  lemma {:induction false} FindDraftAt(revs: seq<Revision>, postId: int, userId: int, s: nat)
    requires s < |revs| && IsDraft(revs[s], postId, userId)
    requires forall j :: 0 <= j < s ==> !IsDraft(revs[j], postId, userId)
    ensures FindDraft(revs, postId, userId) == Some(s)
    decreases s
  {
    if s > 0 {
      assert !IsDraft(revs[0], postId, userId);
      forall j | 0 <= j < s - 1 ensures !IsDraft(revs[1..][j], postId, userId) {
        assert revs[1..][j] == revs[j + 1];
      }
      FindDraftAt(revs[1..], postId, userId, s - 1);
    }
  }

  /** After saving with number 0 the saved row is the editor's draft. */
  lemma SavedRowIsDraft(revs: seq<Revision>, postId: int, title: string, userId: int, body: string, now: int)
    ensures var r := SavedRevisions(revs, postId, title, userId, 0, body, now);
            FindDraft(r, postId, userId) == Some(SavedIndex(revs, postId, userId))
  {
    var r := SavedRevisions(revs, postId, title, userId, 0, body, now);
    var s := SavedIndex(revs, postId, userId);
    forall j | 0 <= j < s ensures !IsDraft(r[j], postId, userId) {
      assert r[j] == revs[j];
    }
    FindDraftAt(r, postId, userId, s);
  }

  /** An autosave leaves the posts alone and leaves the submitted content on the editor's draft; it
      adds a row only when the editor had no draft of the post. */
  lemma AutosaveStoresDraft(t: Store, k: nat, userId: int, content: string, teaser: string, now: int, cfg: Config)
    requires k < |t.posts| && CipherInverts(cfg)
    ensures var t' := AfterUpdatePost(t, k, userId, true, content, teaser, now, cfg);
            && t' == t.(revisions := t'.revisions)
            && FindDraft(t'.revisions, t.posts[k].id, userId).Some?
            && cfg.decrypt(t'.revisions[FindDraft(t'.revisions, t.posts[k].id, userId).value].content) == content
            && |t'.revisions| == |t.revisions| + (if FindDraft(t.revisions, t.posts[k].id, userId).Some? then 0 else 1)
  {
    var p := t.posts[k];
    SavedRowIsDraft(t.revisions, p.id, p.title, userId, cfg.encrypt(content), now);
  }

  /** Autosaving twice adds no row the second time. */
  lemma RepeatedAutosaveAddsNoRow(t: Store, k: nat, userId: int, c1: string, c2: string, teaser: string, now1: int,
                                  now2: int, cfg: Config)
    requires k < |t.posts| && CipherInverts(cfg)
    ensures var t1 := AfterUpdatePost(t, k, userId, true, c1, teaser, now1, cfg);
            |AfterUpdatePost(t1, k, userId, true, c2, teaser, now2, cfg).revisions| == |t1.revisions|
  {
    AutosaveStoresDraft(t, k, userId, c1, teaser, now1, cfg);
  }

  /** A commit stores the content and its teaser on the post and numbers the saved row one above
      every revision of the post before it; nothing but the post row and that revision changes. */
  lemma CommitNumbersAbove(t: Store, k: nat, userId: int, content: string, teaser: string, now: int, cfg: Config)
    requires k < |t.posts| && CipherInverts(cfg)
    ensures var t' := AfterUpdatePost(t, k, userId, false, content, teaser, now, cfg);
            var p := t.posts[k];
            var s := SavedIndex(t.revisions, p.id, userId);
            && s < |t'.revisions| && |t'.revisions| >= |t.revisions|
            && cfg.decrypt(t'.posts[k].content) == content
            && cfg.decrypt(t'.posts[k].teaser) == teaser
            && t'.posts[k].updatedBy == userId && t'.posts[k].updatedAt == now
            && (forall j :: 0 <= j < |t.posts| && j != k ==> t'.posts[j] == t.posts[j])
            && t'.revisions[s].postId == p.id && cfg.decrypt(t'.revisions[s].content) == content
            && (forall j :: 0 <= j < |t.revisions| && t.revisions[j].postId == p.id ==>
                  t.revisions[j].revision < t'.revisions[s].revision)
            && (forall j :: 0 <= j < |t'.revisions| && j != s ==> t'.revisions[j] == t.revisions[j])
  {
  }

  // ---------------------------------------------------------------- updatePostPerms

  /** One decoded entry of the `perms` JSON input. */
  datatype PermInput = PermInput(permId: int, roleId: int)

  /** `post_id != id`: the rows `PostPermission::where('post_id', id)->delete()` keeps. */
  function OtherPost(id: int): PostPermission -> bool
  {
    (pp: PostPermission) => pp.postId != id
  }

  function PermRowsFor(id: int, perms: seq<PermInput>): (r: seq<PostPermission>)
    ensures |r| == |perms|
    ensures forall i :: 0 <= i < |perms| ==> r[i] == PostPermission(id, perms[i].permId, perms[i].roleId)
  {
    seq(|perms|, i requires 0 <= i < |perms| => PostPermission(id, perms[i].permId, perms[i].roleId))
  }

  /** The tables after `updatePostPerms` on the post at index `k`. */
  function AfterUpdatePerms(t: Store, k: nat, shared: bool, perms: seq<PermInput>, now: int): Store
    requires k < |t.posts|
  {
    var id := t.posts[k].id;
    t.(posts := t.posts[k := t.posts[k].(shared := shared, updatedAt := now)],
       postPermissions := Filter(t.postPermissions, OtherPost(id)) + PermRowsFor(id, perms))
  }

  /** The entries the insert loop gets through: the longest prefix of well-formed entries. A
      `None` entry is one whose `perm_id` or `role_id` cannot be read. */
  function DecodedEntries(list: seq<Option<PermInput>>): (r: seq<PermInput>)
    ensures |r| <= |list| && forall j :: 0 <= j < |r| ==> list[j] == Some(r[j])
    ensures |r| < |list| ==> list[|r|].None?
    decreases |list|
  {
    if |list| == 0 || list[0].None? then []
    else
      assert forall j :: 1 <= j < |list| ==> list[j] == list[1..][j - 1];
      [list[0].value] + DecodedEntries(list[1..])
  }

  /** `updatePostPerms`: `shared` from its input, then the post's permission rows replaced by the
      decoded entries. `perms` is what the `foreach` visits: the elements of a decoded list, or the
      property values of a decoded object, in order; `None` when the input decodes to neither, which
      fails at the `foreach`. The loop fails at the first malformed entry, after the rows of the
      entries before it are saved; the post is saved and its old rows deleted before the loop. */
  method UpdatePostPerms(db: Database, id: int, ajax: bool, caller: Caller, shared: Option<string>,
                         perms: Option<seq<Option<PermInput>>>, now: int) returns (r: Response)
    modifies db
    ensures var g := Guard(old(db.tables), id, ajax, caller);
            g.Some? ==> r == g.value && db.tables == old(db.tables)
    ensures Guard(old(db.tables), id, ajax, caller).None? ==>
              && r == (if perms.Some? && forall j :: 0 <= j < |perms.value| ==> perms.value[j].Some?
                       then Text("preferences saved") else Failure)
              && db.tables == AfterUpdatePerms(old(db.tables), FindPost(old(db.tables).posts, id).value, IsTrue(shared),
                                               if perms.Some? then DecodedEntries(perms.value) else [], now)
  {
    var g := Guard(db.tables, id, ajax, caller);
    if g.Some? {
      return g.value;
    }
    var k := FindPost(db.tables.posts, id).value;
    db.tables := db.tables.(posts := db.tables.posts[k := db.tables.posts[k].(shared := IsTrue(shared), updatedAt := now)]);
    db.tables := db.tables.(postPermissions := Filter(db.tables.postPermissions, OtherPost(id)));
    if perms.None? {
      return Failure;
    }
    var ok := InsertPerms(db, id, perms.value);
    r := if ok then Text("preferences saved") else Failure;
  }

  /** The `foreach` that inserts one permission row per entry, up to the first malformed one. */
  method InsertPerms(db: Database, id: int, list: seq<Option<PermInput>>) returns (ok: bool)
    modifies db
    ensures ok <==> forall j :: 0 <= j < |list| ==> list[j].Some?
    ensures db.tables == old(db.tables).(postPermissions := old(db.tables).postPermissions + PermRowsFor(id, DecodedEntries(list)))
  {
    ghost var before := db.tables;
    ghost var entries := DecodedEntries(list);
    var i := 0;
    while i < |list| && list[i].Some?
      invariant i <= |entries|
      invariant db.tables == before.(postPermissions := before.postPermissions + PermRowsFor(id, entries[..i]))
    {
      assert list[i] == Some(entries[i]);
      PermRowsSnoc(id, entries, i);
      db.tables := db.tables.(postPermissions := db.tables.postPermissions + [PostPermission(id, list[i].value.permId, list[i].value.roleId)]);
      i := i + 1;
    }
    assert entries[..i] == entries;
    ok := i == |list|;
  }

  lemma PermRowsSnoc(id: int, list: seq<PermInput>, i: nat)
    requires i < |list|
    ensures PermRowsFor(id, list[..i + 1]) == PermRowsFor(id, list[..i]) + [PostPermission(id, list[i].permId, list[i].roleId)]
  {
    assert PermRowsFor(id, list[..i + 1]) == PermRowsFor(id, list[..i]) + [PostPermission(id, list[i].permId, list[i].roleId)];
  }

  /** The (permission, role) pairs granted on a post, in table order. */
  function GrantsOf(pps: seq<PostPermission>, postId: int): seq<PermInput>
    decreases |pps|
  {
    if |pps| == 0 then []
    else (if pps[0].postId == postId then [PermInput(pps[0].permissionId, pps[0].roleId)] else []) + GrantsOf(pps[1..], postId)
  }

  lemma {:induction false} GrantsOfConcat(a: seq<PostPermission>, b: seq<PostPermission>, postId: int)
    ensures GrantsOf(a + b, postId) == GrantsOf(a, postId) + GrantsOf(b, postId)
    decreases |a|
  {
    if |a| == 0 {
      assert a + b == b;
    } else {
      assert (a + b)[1..] == a[1..] + b && (a + b)[0] == a[0];
      GrantsOfConcat(a[1..], b, postId);
      var h := if a[0].postId == postId then [PermInput(a[0].permissionId, a[0].roleId)] else [];
      assert GrantsOf(a + b, postId) == h + GrantsOf(a[1..] + b, postId);
      assert GrantsOf(a, postId) == h + GrantsOf(a[1..], postId);
    }
  }

  lemma {:induction false} GrantsOfKept(pps: seq<PostPermission>, id: int, postId: int)
    ensures GrantsOf(Filter(pps, OtherPost(id)), postId) == if postId == id then [] else GrantsOf(pps, postId)
    decreases |pps|
  {
    if |pps| > 0 {
      GrantsOfKept(pps[1..], id, postId);
      if OtherPost(id)(pps[0]) {
        assert Filter(pps, OtherPost(id)) == [pps[0]] + Filter(pps[1..], OtherPost(id));
        GrantsOfConcat([pps[0]], Filter(pps[1..], OtherPost(id)), postId);
      }
    }
  }

  lemma {:induction false} GrantsOfFresh(id: int, perms: seq<PermInput>, postId: int)
    ensures GrantsOf(PermRowsFor(id, perms), postId) == if postId == id then perms else []
    decreases |perms|
  {
    if |perms| > 0 {
      assert PermRowsFor(id, perms)[1..] == PermRowsFor(id, perms[1..]);
      GrantsOfFresh(id, perms[1..], postId);
      if postId == id {
        assert perms == [perms[0]] + perms[1..];
      }
    }
  }

  /** Afterwards the post's grants are exactly the submitted list, in order, and every other post's
      grants are as before. */
  lemma PermissionsReplaced(t: Store, k: nat, shared: bool, perms: seq<PermInput>, now: int)
    requires k < |t.posts|
    ensures var t' := AfterUpdatePerms(t, k, shared, perms, now);
            && GrantsOf(t'.postPermissions, t.posts[k].id) == perms
            && (forall postId :: postId != t.posts[k].id ==> GrantsOf(t'.postPermissions, postId) == GrantsOf(t.postPermissions, postId))
            && t'.posts[k].shared == shared && t'.posts[k].updatedAt == now
  {
    var id := t.posts[k].id;
    forall postId ensures GrantsOf(AfterUpdatePerms(t, k, shared, perms, now).postPermissions, postId) ==
                          if postId == id then perms else GrantsOf(t.postPermissions, postId)
    {
      GrantsOfConcat(Filter(t.postPermissions, OtherPost(id)), PermRowsFor(id, perms), postId);
      GrantsOfKept(t.postPermissions, id, postId);
      GrantsOfFresh(id, perms, postId);
    }
  }

  // ---------------------------------------------------------------- deletePost, undeletePost

  predicate AdminOrCreator(p: PostRow, caller: Caller)
  {
    caller.isAdmin || p.createdBy == caller.userId
  }

  /** The post at `k` saved with this deleted mark. */
  function WithDeletedFlag(t: Store, k: nat, flag: bool, now: int): Store
    requires k < |t.posts|
  {
    t.(posts := t.posts[k := t.posts[k].(deleted := flag, updatedAt := now)])
  }

  /** `deletePost`: after the guards, only an admin or the creator may delete. Input `permanent`
      `'true'` removes the post and every row referencing it, otherwise the post is marked deleted. */
  method DeletePost(db: Database, id: int, ajax: bool, caller: Caller, permanent: Option<string>, now: int)
    returns (r: Response)
    modifies db
    ensures var g := Guard(old(db.tables), id, ajax, caller);
            g.Some? ==> r == g.value && db.tables == old(db.tables)
    ensures Guard(old(db.tables), id, ajax, caller).None? ==>
              var k := FindPost(old(db.tables).posts, id).value;
              if !AdminOrCreator(old(db.tables).posts[k], caller) then r == Denied && db.tables == old(db.tables)
              else r == Text("post deleted") &&
                   db.tables == if IsTrue(permanent) then Cascade(old(db.tables), id) else WithDeletedFlag(old(db.tables), k, true, now)
  {
    var g := Guard(db.tables, id, ajax, caller);
    if g.Some? {
      return g.value;
    }
    var k := FindPost(db.tables.posts, id).value;
    var row := db.tables.posts[k];
    if !AdminOrCreator(row, caller) {
      return Denied;
    }
    if IsTrue(permanent) {
      var post := new Post.Load(row);
      post.DeletePost(db);
    } else {
      db.tables := db.tables.(posts := db.tables.posts[k := row.(deleted := true, updatedAt := now)]);
    }
    r := Text("post deleted");
  }

  /** `undeletePost`: after the guards, an admin or the creator clears the deleted mark. */
  method UndeletePost(db: Database, id: int, ajax: bool, caller: Caller, now: int) returns (r: Response)
    modifies db
    ensures var g := Guard(old(db.tables), id, ajax, caller);
            g.Some? ==> r == g.value && db.tables == old(db.tables)
    ensures Guard(old(db.tables), id, ajax, caller).None? ==>
              var k := FindPost(old(db.tables).posts, id).value;
              if !AdminOrCreator(old(db.tables).posts[k], caller) then r == Denied && db.tables == old(db.tables)
              else r == Text("post undeleted") && db.tables == WithDeletedFlag(old(db.tables), k, false, now)
  {
    var g := Guard(db.tables, id, ajax, caller);
    if g.Some? {
      return g.value;
    }
    var k := FindPost(db.tables.posts, id).value;
    var row := db.tables.posts[k];
    if !AdminOrCreator(row, caller) {
      return Denied;
    }
    db.tables := db.tables.(posts := db.tables.posts[k := row.(deleted := false, updatedAt := now)]);
    r := Text("post undeleted");
  }

  /** Undeleting a soft-deleted post restores the tables exactly, except that the post's
      `updated_at` is the undeletion's clock. */
  lemma UndeleteRestores(t: Store, k: nat, deletedAt: int, undeletedAt: int)
    requires k < |t.posts| && !t.posts[k].deleted
    ensures WithDeletedFlag(WithDeletedFlag(t, k, true, deletedAt), k, false, undeletedAt) ==
            t.(posts := t.posts[k := t.posts[k].(updatedAt := undeletedAt)])
  {
    assert WithDeletedFlag(WithDeletedFlag(t, k, true, deletedAt), k, false, undeletedAt).posts ==
           t.posts[k := t.posts[k].(updatedAt := undeletedAt)];
  }

  lemma {:induction false} JoinedIgnoresPosts(t: Store, posts: seq<PostRow>, pps: seq<PostPermission>, postId: int, userId: int)
    ensures JoinedConstants(t.(posts := posts), pps, postId, userId) == JoinedConstants(t, pps, postId, userId)
    decreases |pps|
  {
    if |pps| > 0 {
      JoinedIgnoresPosts(t, posts, pps[1..], postId, userId);
    }
  }

  lemma {:induction false} FindPostSameIds(a: seq<PostRow>, b: seq<PostRow>, id: int)
    requires |a| == |b| && forall i :: 0 <= i < |a| ==> a[i].id == b[i].id
    ensures FindPost(a, id) == FindPost(b, id)
    decreases |a|
  {
    if |a| > 0 {
      FindPostSameIds(a[1..], b[1..], id);
    }
  }

  /** A soft delete or undelete changes no guard outcome: the post stays reachable for undeletion. */
  lemma SoftDeleteKeepsAccess(t: Store, k: nat, flag: bool, now: int, id: int, ajax: bool, caller: Caller)
    requires k < |t.posts|
    ensures Guard(WithDeletedFlag(t, k, flag, now), id, ajax, caller) == Guard(t, id, ajax, caller)
  {
    var t' := WithDeletedFlag(t, k, flag, now);
    FindPostSameIds(t'.posts, t.posts, id);
    JoinedIgnoresPosts(t, t'.posts, t.postPermissions, id, caller.userId);
  }

  /** After a permanent delete every action on the post answers not found. */
  lemma PermanentDeleteIsFinal(t: Store, id: int, ajax: bool, caller: Caller)
    ensures Guard(Cascade(t, id), id, ajax, caller) == Some(NotFound)
  {
    CascadeRemovesReferences(t, id);
  }

  // ---------------------------------------------------------------- updatePostAdv

  /** The `constant` of the lookup row with this id (`$post->type->constant`). */
  function LookupConstant(rows: seq<Lookup>, id: int): (r: Option<string>)
    ensures r.Some? ==> exists i :: 0 <= i < |rows| && rows[i].id == id && rows[i].constant == r.value
    ensures r.None? ==> forall i :: 0 <= i < |rows| ==> rows[i].id != id
    decreases |rows|
  {
    if |rows| == 0 then None
    else if rows[0].id == id then Some(rows[0].constant)
    else
      assert forall i :: 0 < i < |rows| ==> rows[i] == rows[1..][i - 1];
      LookupConstant(rows[1..], id)
  }

  /** A post of type `app` with framework `workbench`. */
  predicate IsWorkbenchApp(t: Store, p: PostRow)
  {
    && LookupConstant(t.types, p.typeId) == Some("app")
    && p.frameworkId.Some? && LookupConstant(t.frameworks, p.frameworkId.value) == Some("workbench")
  }

  /** `$post->type->constant != 'app' || $post->framework->constant != 'workbench'`, read left to
      right: `None` when a constant is read through a missing row (a property read on null, which
      fails), otherwise whether the post is not a workbench app. The framework is read only for a
      post of type `app`. */
  function NotWorkbenchApp(t: Store, p: PostRow): (r: Option<bool>)
    ensures r == Some(false) <==> IsWorkbenchApp(t, p)
    ensures r.None? <==>
              || LookupConstant(t.types, p.typeId).None?
              || (LookupConstant(t.types, p.typeId) == Some("app") &&
                  (p.frameworkId.None? || LookupConstant(t.frameworks, p.frameworkId.value).None?))
  {
    match LookupConstant(t.types, p.typeId)
    case None => None
    case Some(c) =>
      if c != "app" then Some(true)
      else if p.frameworkId.None? then None
      else match LookupConstant(t.frameworks, p.frameworkId.value)
        case None => None
        case Some(fc) => Some(fc != "workbench")
  }

  /** `Router::findDefaultByPost`: the post's first route marked default. */
  function DefaultRoute(routes: seq<Route>, postId: int): (r: Option<nat>)
    ensures r.Some? ==> r.value < |routes| && routes[r.value].postId == postId && routes[r.value].isDefault
    ensures r.None? ==> forall i :: 0 <= i < |routes| ==> !(routes[i].postId == postId && routes[i].isDefault)
    decreases |routes|
  {
    if |routes| == 0 then None
    else if routes[0].postId == postId && routes[0].isDefault then Some(0)
    else
      assert forall i :: 0 < i < |routes| ==> routes[i] == routes[1..][i - 1];
      match DefaultRoute(routes[1..], postId)
      case None => None
      case Some(j) => Some(j + 1)
  }

  /** The advanced form once read: the static slug, whether the route is static, the symlink flag and
      the workbench package. */
  datatype AdvForm = AdvForm(slug: string, isStatic: bool, symlink: bool, workbench: Option<string>)

  /** The default slug trimmed, `//` replaced by `/` in one left-to-right pass, and a bare `/`
      cleared. */
  function CollapsedSlug(input: string): string
  {
    var s := ReplaceLit(Trim(input), "//", "/");
    if s == "/" then "" else s
  }

  /** One leading and then one trailing `/` removed. */
  function StrippedSlug(s: string): string
  {
    var a := if |s| > 0 && s[0] == '/' then s[1..] else s;
    if |a| > 0 && a[|a| - 1] == '/' then a[..|a| - 1] else a
  }

  /** The lower-cased workbench input; a falsy value is null. */
  function WorkbenchValue(input: string): Option<string>
  {
    var w := Lower(input);
    if Truthy(w) then Some(w) else None
  }

  /** The form values, or `None` when the workbench is given but is not `vendor/package`. The route
      is static iff the collapsed slug is truthy, and a symlink needs a static route. */
  function ReadAdvForm(slugInput: string, symlinkInput: Option<string>, workbenchInput: string): (r: Option<AdvForm>)
    ensures r.None? <==> WorkbenchValue(workbenchInput).Some? && CountChar(WorkbenchValue(workbenchInput).value, '/') != 1
    ensures r.Some? ==> r.value.isStatic == Truthy(CollapsedSlug(slugInput))
    ensures r.Some? ==> (r.value.symlink <==> IsTrue(symlinkInput) && r.value.isStatic)
    ensures r.Some? ==> r.value.slug == StrippedSlug(CollapsedSlug(slugInput))
  {
    var s := CollapsedSlug(slugInput);
    var isStatic := Truthy(s);
    var w := WorkbenchValue(workbenchInput);
    if w.Some? && CountChar(w.value, '/') != 1 then None
    else Some(AdvForm(StrippedSlug(s), isStatic, IsTrue(symlinkInput) && isStatic, w))
  }

  function FirstSegment(slug: string): string
  {
    Explode('/', slug)[0]
  }

  /** Another post's enabled route already has this slug. */
  predicate RouteTaken(routes: seq<Route>, slug: string, postId: int)
  {
    exists j :: 0 <= j < |routes| && routes[j].slug == slug && !routes[j].disabled && routes[j].postId != postId
  }

  /** The static-route checks, in order: numeric first segment, duplicate, reserved word. */
  function RouteError(routes: seq<Route>, postId: int, slug: string, cfg: Config): (r: Option<string>)
    ensures r.None? <==> !IsNumeric(FirstSegment(slug)) && !RouteTaken(routes, slug, postId) &&
                         FirstSegment(slug) !in cfg.reservedRoutes
  {
    if IsNumeric(FirstSegment(slug)) then Some("ERROR: Static route cannot begin with an integer")
    else if RouteTaken(routes, slug, postId) then Some("ERROR: Route already exists")
    else if FirstSegment(slug) in cfg.reservedRoutes then
      Some("ERROR: Static route cannot be '" + FirstSegment(slug) + "', this is a reserved word")
    else None
  }

  /** The post row at `k` saved with the form's symlink and workbench. */
  function WithAdvFlags(t: Store, k: nat, f: AdvForm, now: int): Store
    requires k < |t.posts|
  {
    t.(posts := t.posts[k := t.posts[k].(symlink := f.symlink, workbench := f.workbench, updatedAt := now)])
  }

  /** The route step of `updatePostAdv`: a static route takes the form's slug once it passes the
      checks, a dynamic one goes back to the post's slug; a post without a default route fails. */
  function AdvRoute(t: Store, postId: int, postSlug: string, f: AdvForm, cfg: Config): (r: (Store, Response))
    ensures r.0 == t.(routes := r.0.routes) && |r.0.routes| == |t.routes|
    ensures r.1 == Text("preferences saved") <==>
              DefaultRoute(t.routes, postId).Some? && (f.isStatic ==> RouteError(t.routes, postId, f.slug, cfg).None?)
    ensures r.1 != Text("preferences saved") ==> r.0 == t
  {
    match DefaultRoute(t.routes, postId)
    case None => (t, Failure)
    case Some(j) =>
      var err := if f.isStatic then RouteError(t.routes, postId, f.slug, cfg) else None;
      if err.Some? then (t, Text(err.value))
      else
        var slug := if f.isStatic then f.slug else postSlug;
        (t.(routes := t.routes[j := t.routes[j].(slug := slug, isStatic := f.isStatic)]), Text("preferences saved"))
  }

  /** The tables and answer of `updatePostAdv` after its guards, on the post at index `k`. The post's
      symlink and workbench are saved before the route is checked, so they stay when it fails. */
  function UpdateAdv(t: Store, k: nat, caller: Caller, slugInput: string, symlinkInput: Option<string>,
                     workbenchInput: string, now: int, cfg: Config): (Store, Response)
    requires k < |t.posts|
  {
    var p := t.posts[k];
    if !caller.isAdmin then (t, Text("preferences saved"))
    else match NotWorkbenchApp(t, p)
      case None => (t, Failure)
      case Some(notApp) =>
        if notApp then (t, Text("ERROR: post must be type=app and framework=workbench"))
        else match ReadAdvForm(slugInput, symlinkInput, workbenchInput)
          case None => (t, Text("ERROR: workbench must be vendor/package format"))
          case Some(f) => AdvRoute(WithAdvFlags(t, k, f, now), p.id, p.slug, f, cfg)
  }

  /** Validates and saves the default route, as `updatePostAdv` does once the post is saved. */
  method SaveAdvRoute(db: Database, postId: int, postSlug: string, f: AdvForm, cfg: Config) returns (r: Response)
    modifies db
    ensures (db.tables, r) == AdvRoute(old(db.tables), postId, postSlug, f, cfg)
  {
    var j := DefaultRoute(db.tables.routes, postId);
    if j.None? {
      return Failure;
    }
    r := Text("preferences saved");
    var route := db.tables.routes[j.value];
    var valid := true;
    if f.isStatic {
      route := route.(slug := f.slug);
      var first := FirstSegment(f.slug);
      if valid && IsNumeric(first) {
        r := Text("ERROR: Static route cannot begin with an integer");
        valid := false;
      }
      if valid && RouteTaken(db.tables.routes, f.slug, postId) {
        r := Text("ERROR: Route already exists");
        valid := false;
      }
      if valid && first in cfg.reservedRoutes {
        r := Text("ERROR: Static route cannot be '" + first + "', this is a reserved word");
        valid := false;
      }
    } else {
      route := route.(slug := postSlug);
    }
    if valid {
      route := route.(isStatic := f.isStatic);
      db.tables := db.tables.(routes := db.tables.routes[j.value := route]);
    }
  }

  /** `updatePostAdv`. */
  method UpdatePostAdv(db: Database, id: int, ajax: bool, caller: Caller, slugInput: string, symlinkInput: Option<string>,
                       workbenchInput: string, now: int, cfg: Config) returns (r: Response)
    modifies db
    ensures var g := Guard(old(db.tables), id, ajax, caller);
            g.Some? ==> r == g.value && db.tables == old(db.tables)
    ensures Guard(old(db.tables), id, ajax, caller).None? ==>
              (db.tables, r) == UpdateAdv(old(db.tables), FindPost(old(db.tables).posts, id).value, caller, slugInput,
                                          symlinkInput, workbenchInput, now, cfg)
  {
    var g := Guard(db.tables, id, ajax, caller);
    if g.Some? {
      return g.value;
    }
    var k := FindPost(db.tables.posts, id).value;
    var post := db.tables.posts[k];
    if !caller.isAdmin {
      return Text("preferences saved");
    }
    var notApp := NotWorkbenchApp(db.tables, post);
    if notApp.None? {
      return Failure;
    }
    if notApp.value {
      return Text("ERROR: post must be type=app and framework=workbench");
    }
    var form := ReadAdvForm(slugInput, symlinkInput, workbenchInput);
    if form.None? {
      return Text("ERROR: workbench must be vendor/package format");
    }
    db.tables := WithAdvFlags(db.tables, k, form.value, now);
    r := SaveAdvRoute(db, post.id, post.slug, form.value, cfg);
  }

  /** Wrapping a slug in one slash on each side is undone by the stripping. */
  lemma StrippedSlugOfWrapped(s: string)
    ensures StrippedSlug("/" + s + "/") == s
  {
    var w := "/" + s + "/";
    assert w[1..] == s + "/";
    assert (s + "/")[..|s|] == s;
  }

  /** A route saved as static passed every check: its first segment is not numeric, no other
      post's enabled route has its slug, and its first segment is not reserved; the default route
      took the slug and nothing else in the routes changed. */
  lemma SavedStaticRouteIsValid(t: Store, k: nat, caller: Caller, slugInput: string, symlinkInput: Option<string>,
                                workbenchInput: string, now: int, cfg: Config)
    requires k < |t.posts|
    requires caller.isAdmin && IsWorkbenchApp(t, t.posts[k])
    requires ReadAdvForm(slugInput, symlinkInput, workbenchInput).Some?
    requires ReadAdvForm(slugInput, symlinkInput, workbenchInput).value.isStatic
    requires UpdateAdv(t, k, caller, slugInput, symlinkInput, workbenchInput, now, cfg).1 == Text("preferences saved")
    ensures var f := ReadAdvForm(slugInput, symlinkInput, workbenchInput).value;
            var t' := UpdateAdv(t, k, caller, slugInput, symlinkInput, workbenchInput, now, cfg).0;
            var j := DefaultRoute(t.routes, t.posts[k].id);
            && j.Some?
            && t'.routes == t.routes[j.value := t.routes[j.value].(slug := f.slug, isStatic := true)]
            && !IsNumeric(FirstSegment(f.slug))
            && !RouteTaken(t.routes, f.slug, t.posts[k].id)
            && FirstSegment(f.slug) !in cfg.reservedRoutes
  {
    var f := ReadAdvForm(slugInput, symlinkInput, workbenchInput).value;
    var t1 := WithAdvFlags(t, k, f, now);
    assert t1.routes == t.routes;
  }

  /** An accepted form without a static slug puts the default route back on the post's own slug,
      marked not static, and changes no other route; a post without a default route fails. */
  lemma DynamicRouteReset(t: Store, k: nat, caller: Caller, slugInput: string, symlinkInput: Option<string>,
                          workbenchInput: string, now: int, cfg: Config)
    requires k < |t.posts|
    requires caller.isAdmin && IsWorkbenchApp(t, t.posts[k])
    requires ReadAdvForm(slugInput, symlinkInput, workbenchInput).Some?
    requires !ReadAdvForm(slugInput, symlinkInput, workbenchInput).value.isStatic
    ensures var res := UpdateAdv(t, k, caller, slugInput, symlinkInput, workbenchInput, now, cfg);
            var p := t.posts[k];
            match DefaultRoute(t.routes, p.id)
            case None => res.1 == Failure
            case Some(j) =>
              && res.1 == Text("preferences saved")
              && res.0.routes == t.routes[j := t.routes[j].(slug := p.slug, isStatic := false)]
  {
    var f := ReadAdvForm(slugInput, symlinkInput, workbenchInput).value;
    var t1 := WithAdvFlags(t, k, f, now);
    assert t1.routes == t.routes;
  }

  /** Once the form is accepted the post's symlink is the submitted flag of a static route, the
      workbench is saved, and a rejected static route leaves the routes as they were. */
  lemma AdvFlagsSaved(t: Store, k: nat, caller: Caller, slugInput: string, symlinkInput: Option<string>,
                      workbenchInput: string, now: int, cfg: Config)
    requires k < |t.posts|
    requires caller.isAdmin && IsWorkbenchApp(t, t.posts[k])
    requires ReadAdvForm(slugInput, symlinkInput, workbenchInput).Some?
    ensures var f := ReadAdvForm(slugInput, symlinkInput, workbenchInput).value;
            var t' := UpdateAdv(t, k, caller, slugInput, symlinkInput, workbenchInput, now, cfg).0;
            && |t'.posts| == |t.posts|
            && t'.posts[k].symlink == (IsTrue(symlinkInput) && Truthy(CollapsedSlug(slugInput)))
            && t'.posts[k].workbench == WorkbenchValue(workbenchInput)
            && t'.posts[k].updatedAt == now
            && (f.isStatic && RouteError(t.routes, t.posts[k].id, f.slug, cfg).Some? ==> t'.routes == t.routes)
  {
    var f := ReadAdvForm(slugInput, symlinkInput, workbenchInput).value;
    var t1 := WithAdvFlags(t, k, f, now);
    assert t1.posts[k].symlink == f.symlink && t1.posts[k].workbench == f.workbench;
    assert t1.routes == t.routes;
    var t' := AdvRoute(t1, t.posts[k].id, t.posts[k].slug, f, cfg).0;
    assert t'.posts == t1.posts;
  }

  /** A caller who is not an administrator changes nothing and is told the preferences were saved. */
  lemma AdvNeedsAdmin(t: Store, k: nat, caller: Caller, slugInput: string, symlinkInput: Option<string>,
                      workbenchInput: string, now: int, cfg: Config)
    requires k < |t.posts| && !caller.isAdmin
    ensures UpdateAdv(t, k, caller, slugInput, symlinkInput, workbenchInput, now, cfg) == (t, Text("preferences saved"))
  {
  }

  /** The action fails exactly when an administrator's post reads a type or framework constant
      through a missing lookup row, which changes nothing, or when an accepted form meets a post
      without a default route, which keeps the saved symlink and workbench. */
  lemma AdvFailure(t: Store, k: nat, caller: Caller, slugInput: string, symlinkInput: Option<string>,
                   workbenchInput: string, now: int, cfg: Config)
    requires k < |t.posts|
    ensures var res := UpdateAdv(t, k, caller, slugInput, symlinkInput, workbenchInput, now, cfg);
            res.1 == Failure <==>
              && caller.isAdmin
              && (|| NotWorkbenchApp(t, t.posts[k]).None?
                  || (&& IsWorkbenchApp(t, t.posts[k])
                      && ReadAdvForm(slugInput, symlinkInput, workbenchInput).Some?
                      && DefaultRoute(t.routes, t.posts[k].id).None?))
    ensures caller.isAdmin && NotWorkbenchApp(t, t.posts[k]).None? ==>
              UpdateAdv(t, k, caller, slugInput, symlinkInput, workbenchInput, now, cfg) == (t, Failure)
  {
    var form := ReadAdvForm(slugInput, symlinkInput, workbenchInput);
    if caller.isAdmin && IsWorkbenchApp(t, t.posts[k]) && form.Some? {
      var t1 := WithAdvFlags(t, k, form.value, now);
      assert t1.routes == t.routes;
    }
  }

  /** One pass of the `//` replacement leaves `//` from `///`, which the stripping then empties: a
      slug of three slashes is saved as a static route with an empty slug. */
  lemma TripleSlashIsStaticAndEmpty()
    ensures ReadAdvForm("///", None, "") == Some(AdvForm("", true, false, None))
  {
    assert Trim("///") == "///" by {
      assert TrimStart("///") == "///";
      assert TrimEnd("///") == "///";
    }
    assert MatchLen([Lit("//")], "///") == 2;
    assert MatchLen([Lit("//")], "/") == 0;
    assert ReplaceLit("/", "//", "/") == "/";
    assert ReplaceLit("///", "//", "/") == "//";
    assert CollapsedSlug("///") == "//";
    assert WorkbenchValue("") == None;
  }

  /** `"0"` is falsy in PHP, so the slug `0` does not make the route static, and no symlink is set. */
  lemma ZeroSlugIsNotStatic()
    ensures ReadAdvForm("0", Some("true"), "") == Some(AdvForm("0", false, false, None))
  {
    assert Trim("0") == "0" by {
      assert TrimStart("0") == "0";
      assert TrimEnd("0") == "0";
    }
    assert MatchLen([Lit("//")], "0") == 0;
    assert ReplaceLit("0", "//", "/") == "0";
    assert CollapsedSlug("0") == "0";
    assert StrippedSlug("0") == "0";
    assert WorkbenchValue("") == None;
  }

  // ---------------------------------------------------------------- updatePostOrg

  /** The framework a post of this type keeps: the submitted one for the configured app type,
      none for any other type. */
  function FrameworkFor(typeId: int, framework: Option<int>, appType: int): (r: Option<int>)
    ensures r.Some? ==> typeId == appType && r == framework
    ensures typeId == appType ==> r == framework
  {
    if typeId == appType then framework else None
  }

  /** The organisation form: the lookups, title, slug, hidden flag and the comma-separated new tags
      (empty when not given). */
  datatype OrgForm = OrgForm(formatId: int, typeId: int, framework: Option<int>, modeId: int, title: string,
                             slug: string, hidden: Option<string>, newTags: string)

  /** The post saved with the form's organisation values. */
  function OrgPost(p: PostRow, f: OrgForm, now: int, cfg: Config): (r: PostRow)
    ensures r.hidden <==> IsTrue(f.hidden)
    ensures r.frameworkId.Some? ==> r.typeId == cfg.appType
    ensures r.updatedAt == now
    ensures r == p.(formatId := r.formatId, typeId := r.typeId, frameworkId := r.frameworkId, modeId := r.modeId,
                    title := r.title, slug := r.slug, hidden := r.hidden, updatedAt := r.updatedAt)
  {
    p.(formatId := f.formatId, typeId := f.typeId, frameworkId := FrameworkFor(f.typeId, f.framework, cfg.appType),
       modeId := f.modeId, title := f.title, slug := f.slug, hidden := IsTrue(f.hidden), updatedAt := now)
  }

  /** The routes after a retitle: a changed title moves a non-static default route to the new slug;
      `None` when the title changed and the post has no default route (the action then fails). */
  function OrgRoutes(routes: seq<Route>, p: PostRow, f: OrgForm): Option<seq<Route>>
  {
    if p.title == f.title then Some(routes)
    else match DefaultRoute(routes, p.id)
      case None => None
      case Some(j) => Some(if routes[j].isStatic then routes else routes[j := routes[j].(slug := f.slug)])
  }

  /** The characters `[^\w-]` does not remove: ASCII letters, digits, `_` and `-`. */
  predicate IsTagChar(c: char)
  {
    ('a' <= c <= 'z') || ('A' <= c <= 'Z') || ('0' <= c <= '9') || c == '_' || c == '-'
  }

  /** `str_limit($s, $n, '')`: at most `n` characters, with trailing whitespace of the cut removed. */
  function Limit(s: string, n: nat): string
  {
    if |s| <= n then s else TrimEnd(s[..n])
  }

  /** A new tag as stored: its tag characters kept, trimmed and lower-cased, and cut to 50
      characters; `None` when fewer than two characters are left. */
  function NormalizedTag(raw: string): Option<string>
  {
    var s := Lower(Trim(Filter(raw, IsTagChar)));
    if |s| >= 2 then Some(Limit(s, 50)) else None
  }

  predicate HasTagNamed(tags: seq<Tag>, name: string)
  {
    exists i :: 0 <= i < |tags| && tags[i].name == name
  }

  /** The `post_tags` rows that attach each of `tags` to the post, in order. */
  function TagLinks(postId: int, tags: seq<Tag>): (r: seq<PostTag>)
    ensures |r| == |tags| && forall i :: 0 <= i < |tags| ==> r[i] == PostTag(postId, tags[i].id)
  {
    seq(|tags|, i requires 0 <= i < |tags| => PostTag(postId, tags[i].id))
  }

  lemma TagLinksAppend(postId: int, a: seq<Tag>, b: seq<Tag>)
    ensures TagLinks(postId, a + b) == TagLinks(postId, a) + TagLinks(postId, b)
  {
    assert forall i :: 0 <= i < |b| ==> (a + b)[|a| + i] == b[i];
  }

  /** One new tag: created and attached to the post unless a tag of that name exists, in which case
      nothing changes (the existing tag is not attached). */
  function AddTag(t: Store, postId: int, name: string): (r: Store)
    ensures r == t.(tags := r.tags, postTags := r.postTags)
    ensures |t.tags| <= |r.tags| && r.tags[..|t.tags|] == t.tags
    ensures r.postTags == t.postTags + TagLinks(postId, r.tags[|t.tags|..])
    ensures HasTagNamed(t.tags, name) ==> r == t
    ensures !HasTagNamed(t.tags, name) ==> |r.tags| == |t.tags| + 1 && r.tags[|t.tags|].name == name
  {
    if HasTagNamed(t.tags, name) then t
    else
      var newId := NextId(Ids(t.tags, TagKey));
      t.(tags := t.tags + [Tag(newId, name)], postTags := t.postTags + [PostTag(postId, newId)])
  }

  /** Each submitted part's normalized name, in order. */
  function NormalizedTags(parts: seq<string>): (r: seq<Option<string>>)
    ensures |r| == |parts| && forall j :: 0 <= j < |parts| ==> r[j] == NormalizedTag(parts[j])
  {
    seq(|parts|, j requires 0 <= j < |parts| => NormalizedTag(parts[j]))
  }

  /** The new-tag loop over the normalized names, in order; a part too short to keep is skipped. */
  function AddTags(t: Store, postId: int, names: seq<Option<string>>): (r: Store)
    ensures r == t.(tags := r.tags, postTags := r.postTags)
    ensures |t.tags| <= |r.tags| && r.tags[..|t.tags|] == t.tags
    decreases |names|
  {
    if |names| == 0 then t
    else
      var n := |names| - 1;
      var t1 := AddTags(t, postId, names[..n]);
      match names[n]
      case None => t1
      case Some(name) => AddTag(t1, postId, name)
  }

  /** Every tag the loop creates is attached to the post, in the order of creation, and the loop
      adds no other `post_tags` row. */
  lemma {:induction false} AddTagsLinks(t: Store, postId: int, names: seq<Option<string>>)
    ensures var r := AddTags(t, postId, names);
            r.postTags == t.postTags + TagLinks(postId, r.tags[|t.tags|..])
    decreases |names|
  {
    var r := AddTags(t, postId, names);
    if |names| == 0 {
      assert r.tags[|t.tags|..] == [];
    } else {
      var n := |names| - 1;
      AddTagsLinks(t, postId, names[..n]);
      var t1 := AddTags(t, postId, names[..n]);
      if names[n].Some? {
        assert r == AddTag(t1, postId, names[n].value);
        assert r.tags[|t.tags|..] == t1.tags[|t.tags|..] + r.tags[|t1.tags|..] by {
          assert r.tags[..|t1.tags|] == t1.tags;
        }
        TagLinksAppend(postId, t1.tags[|t.tags|..], r.tags[|t1.tags|..]);
      } else {
        assert r == t1;
      }
    }
  }

  /** One more name of the loop. */
  lemma AddTagsSnoc(t: Store, postId: int, names: seq<Option<string>>, i: nat)
    requires i < |names|
    ensures AddTags(t, postId, names[..i + 1]) ==
            match names[i]
            case None => AddTags(t, postId, names[..i])
            case Some(name) => AddTag(AddTags(t, postId, names[..i]), postId, name)
  {
    assert names[..i + 1][..i] == names[..i];
  }

  /** The new tags of the form: none unless the input is truthy, else one per comma-separated part. */
  function OrgTags(t: Store, postId: int, newTags: string): (r: Store)
    ensures r == t.(tags := r.tags, postTags := r.postTags)
    ensures |t.tags| <= |r.tags| && r.tags[..|t.tags|] == t.tags
  {
    if Truthy(newTags) then AddTags(t, postId, NormalizedTags(Explode(',', newTags))) else t
  }

  /** The tables and answer of `updatePostOrg` after its guards, on the post at index `k`.
      `hashtagSaved` is what the hashtag update reports, which runs after everything is saved. */
  function UpdateOrg(t: Store, k: nat, f: OrgForm, hashtagSaved: bool, now: int, cfg: Config): (Store, Response)
    requires k < |t.posts|
  {
    var p := t.posts[k];
    match OrgRoutes(t.routes, p, f)
    case None => (t, Failure)
    case Some(routes) =>
      var t1 := t.(routes := routes, posts := t.posts[k := OrgPost(p, f, now, cfg)]);
      (OrgTags(t1, p.id, f.newTags),
       if hashtagSaved then Text("preferences saved") else Text("ERROR: Hashtag already exists"))
  }

  /** The new-tag loop of `updatePostOrg`. */
  method AddNewTags(db: Database, postId: int, newTags: string)
    modifies db
    ensures db.tables == OrgTags(old(db.tables), postId, newTags)
  {
    if !Truthy(newTags) {
      return;
    }
    var parts := Explode(',', newTags);
    ghost var names := NormalizedTags(parts);
    ghost var before := db.tables;
    var i := 0;
    while i < |parts|
      invariant i <= |parts|
      invariant db.tables == AddTags(before, postId, names[..i])
    {
      AddTagsSnoc(before, postId, names, i);
      var name := NormalizedTag(parts[i]);
      assert names[i] == name;
      if name.Some? {
        SaveTag(db, postId, name.value);
      }
      i := i + 1;
    }
    assert names[..i] == names;
  }

  /** One iteration: creates the tag and its link to the post unless a tag of that name exists. */
  method SaveTag(db: Database, postId: int, tag: string)
    modifies db
    ensures db.tables == AddTag(old(db.tables), postId, tag)
  {
    if !HasTagNamed(db.tables.tags, tag) {
      var newId := NextId(Ids(db.tables.tags, TagKey));
      db.tables := db.tables.(tags := db.tables.tags + [Tag(newId, tag)],
                              postTags := db.tables.postTags + [PostTag(postId, newId)]);
    }
  }

  /** `updatePostOrg`. */
  method UpdatePostOrg(db: Database, id: int, ajax: bool, caller: Caller, f: OrgForm, hashtagSaved: bool, now: int,
                       cfg: Config)
    returns (r: Response)
    modifies db
    ensures var g := Guard(old(db.tables), id, ajax, caller);
            g.Some? ==> r == g.value && db.tables == old(db.tables)
    ensures Guard(old(db.tables), id, ajax, caller).None? ==>
              (db.tables, r) == UpdateOrg(old(db.tables), FindPost(old(db.tables).posts, id).value, f, hashtagSaved, now,
                                          cfg)
  {
    var g := Guard(db.tables, id, ajax, caller);
    if g.Some? {
      return g.value;
    }
    var k := FindPost(db.tables.posts, id).value;
    var post := db.tables.posts[k];
    var routes := OrgRoutes(db.tables.routes, post, f);
    if routes.None? {
      return Failure;
    }
    db.tables := db.tables.(routes := routes.value);
    db.tables := db.tables.(posts := db.tables.posts[k := OrgPost(post, f, now, cfg)]);
    AddNewTags(db, post.id, f.newTags);
    r := if hashtagSaved then Text("preferences saved") else Text("ERROR: Hashtag already exists");
  }

  /** A retitle leaves a static default route where it is and moves a dynamic one to the new slug;
      keeping the title keeps every route. */
  lemma RetitleMovesDynamicRoute(routes: seq<Route>, p: PostRow, f: OrgForm)
    ensures p.title == f.title ==> OrgRoutes(routes, p, f) == Some(routes)
    ensures p.title != f.title ==> (OrgRoutes(routes, p, f).None? <==> DefaultRoute(routes, p.id).None?)
    ensures p.title != f.title && DefaultRoute(routes, p.id).Some? ==>
              var j := DefaultRoute(routes, p.id).value;
              && OrgRoutes(routes, p, f).value[j].slug == (if routes[j].isStatic then routes[j].slug else f.slug)
              && forall i :: 0 <= i < |routes| && i != j ==> OrgRoutes(routes, p, f).value[i] == routes[i]
  {
  }

  /** The trailing whitespace cut finds none in a string without trim characters. */
  lemma TrimEndOfClean(s: string)
    requires forall i :: 0 <= i < |s| ==> !IsTrimChar(s[i])
    ensures TrimEnd(s) == s
  {
  }

  /** Every character `Filter` keeps is a tag character. */
  lemma FilterTagChars(s: string)
    ensures forall i :: 0 <= i < |Filter(s, IsTagChar)| ==> IsTagChar(Filter(s, IsTagChar)[i])
  {
  }

  /** `Filter` keeps a string of tag characters whole. */
  lemma {:induction false} FilterKeepsTagChars(s: string)
    requires forall i :: 0 <= i < |s| ==> IsTagChar(s[i])
    ensures Filter(s, IsTagChar) == s
    decreases |s|
  {
    if |s| > 0 {
      FilterKeepsTagChars(s[1..]);
      assert s == [s[0]] + s[1..];
    }
  }

  /** A lower-case tag name: two to fifty tag characters, none of them an upper-case letter. */
  predicate TagShaped(name: string)
  {
    2 <= |name| <= 50 && forall i :: 0 <= i < |name| ==> IsTagChar(name[i]) && !('A' <= name[i] <= 'Z')
  }

  /** Trimming a string of tag characters leaves tag characters. */
  lemma TrimmedTagChars(s: string)
    requires forall i :: 0 <= i < |s| ==> IsTagChar(s[i])
    ensures forall i :: 0 <= i < |Trim(s)| ==> IsTagChar(Trim(s)[i])
  {
    var r := Trim(s);
    forall i | 0 <= i < |r| ensures IsTagChar(r[i]) {
      assert r[i] == s[TrimOffset(s) + i];
    }
  }

  /** Lower-casing tag characters gives lower-case tag characters, none of them a trim character. */
  lemma LowerTagChars(s: string)
    requires forall i :: 0 <= i < |s| ==> IsTagChar(s[i])
    ensures forall i :: 0 <= i < |Lower(s)| ==>
              IsTagChar(Lower(s)[i]) && !('A' <= Lower(s)[i] <= 'Z') && !IsTrimChar(Lower(s)[i])
  {
  }

  /** Cutting lower-case tag characters to fifty keeps a lower-case tag name. */
  lemma LimitTagShape(s: string)
    requires |s| >= 2
    requires forall i :: 0 <= i < |s| ==> IsTagChar(s[i]) && !('A' <= s[i] <= 'Z') && !IsTrimChar(s[i])
    ensures TagShaped(Limit(s, 50))
  {
    if |s| > 50 {
      TrimEndOfClean(s[..50]);
      assert Limit(s, 50) == s[..50];
    }
  }

  /** Every stored new tag is a lower-case tag name. */
  lemma NormalizedTagShape(raw: string)
    ensures NormalizedTag(raw).Some? ==> TagShaped(NormalizedTag(raw).value)
  {
    var kept := Filter(raw, IsTagChar);
    FilterTagChars(raw);
    TrimmedTagChars(kept);
    LowerTagChars(Trim(kept));
    if |Lower(Trim(kept))| >= 2 {
      LimitTagShape(Lower(Trim(kept)));
    }
  }

  /** A string without trim characters is its own trim. */
  lemma TrimOfClean(s: string)
    requires forall i :: 0 <= i < |s| ==> !IsTrimChar(s[i])
    ensures Trim(s) == s
  {
    assert TrimStart(s) == s;
    TrimEndOfClean(s);
  }

  /** A string without upper-case letters is its own lower case. */
  lemma LowerOfLower(s: string)
    requires forall i :: 0 <= i < |s| ==> !('A' <= s[i] <= 'Z')
    ensures Lower(s) == s
  {
    assert forall i :: 0 <= i < |s| ==> Lower(s)[i] == s[i];
  }

  lemma NormalizedFixedPoint(name: string)
    requires 2 <= |name| <= 50
    requires Filter(name, IsTagChar) == name && Trim(name) == name && Lower(name) == name
    ensures NormalizedTag(name) == Some(name)
  {
  }

  /** Tag characters are not trim characters. */
  lemma TagCharsNotTrim(s: string)
    requires forall i :: 0 <= i < |s| ==> IsTagChar(s[i])
    ensures forall i :: 0 <= i < |s| ==> !IsTrimChar(s[i])
  {
  }

  /** Normalizing a stored tag name gives it back unchanged. */
  lemma NormalizedTagIdempotent(name: string)
    requires TagShaped(name)
    ensures NormalizedTag(name) == Some(name)
  {
    FilterKeepsTagChars(name);
    TagCharsNotTrim(name);
    TrimOfClean(name);
    LowerOfLower(name);
    NormalizedFixedPoint(name);
  }

  /** Tag names are unique. */
  predicate UniqueTagNames(tags: seq<Tag>)
  {
    forall i, j :: 0 <= i < j < |tags| ==> tags[i].name != tags[j].name
  }

  /** One new tag keeps the tags in front and their names unique, and leaves a tag of that name. */
  lemma AddTagStep(t: Store, postId: int, name: string)
    requires UniqueTagNames(t.tags)
    ensures var r := AddTag(t, postId, name);
            && |t.tags| <= |r.tags| <= |t.tags| + 1 && r.tags[..|t.tags|] == t.tags
            && (|r.tags| > |t.tags| ==> r.tags[|t.tags|].name == name)
            && UniqueTagNames(r.tags) && HasTagNamed(r.tags, name)
  {
    var r := AddTag(t, postId, name);
    if !HasTagNamed(t.tags, name) {
      assert r.tags[|t.tags|].name == name;
      assert r.tags[..|t.tags|] == t.tags;
    }
  }

  /** The new-tag loop keeps tag names unique. */
  lemma {:induction false} AddTagsKeepNamesUnique(t: Store, postId: int, names: seq<Option<string>>)
    requires UniqueTagNames(t.tags)
    ensures UniqueTagNames(AddTags(t, postId, names).tags)
    decreases |names|
  {
    if |names| > 0 {
      var n := |names| - 1;
      AddTagsKeepNamesUnique(t, postId, names[..n]);
      var t1 := AddTags(t, postId, names[..n]);
      if names[n].Some? {
        AddTagStep(t1, postId, names[n].value);
      }
    }
  }

  /** Every tag the loop creates has one of the submitted names. */
  lemma {:induction false} AddTagsCreatesNamed(t: Store, postId: int, names: seq<Option<string>>)
    requires UniqueTagNames(t.tags)
    ensures forall i :: |t.tags| <= i < |AddTags(t, postId, names).tags| ==>
              Some(AddTags(t, postId, names).tags[i].name) in names
    decreases |names|
  {
    if |names| > 0 {
      var n := |names| - 1;
      var pre := names[..n];
      assert names == pre + [names[n]];
      AddTagsCreatesNamed(t, postId, pre);
      AddTagsKeepNamesUnique(t, postId, pre);
      var t1 := AddTags(t, postId, pre);
      assert forall i :: |t.tags| <= i < |AddTags(t, postId, pre).tags| ==> Some(AddTags(t, postId, pre).tags[i].name) in pre;
      if names[n].Some? {
        AddTagStep(t1, postId, names[n].value);
        var t' := AddTag(t1, postId, names[n].value);
        forall i | |t.tags| <= i < |t'.tags| ensures Some(t'.tags[i].name) in names {
          if i < |t1.tags| {
            assert t'.tags[i] == t1.tags[..|t1.tags|][i];
            assert Some(t1.tags[i].name) in pre;
          } else {
            assert Some(t'.tags[i].name) == names[n];
          }
        }
      } else {
        assert AddTags(t, postId, names) == t1;
      }
    }
  }

  /** After the loop every submitted name has a tag. */
  lemma {:induction false} AddTagsComplete(t: Store, postId: int, names: seq<Option<string>>)
    requires UniqueTagNames(t.tags)
    ensures var t' := AddTags(t, postId, names);
            forall j :: 0 <= j < |names| && names[j].Some? ==> HasTagNamed(t'.tags, names[j].value)
    decreases |names|
  {
    if |names| > 0 {
      var n := |names| - 1;
      var pre := names[..n];
      AddTagsComplete(t, postId, pre);
      AddTagsKeepNamesUnique(t, postId, pre);
      var t1 := AddTags(t, postId, pre);
      if names[n].Some? {
        AddTagStep(t1, postId, names[n].value);
        var t' := AddTag(t1, postId, names[n].value);
        forall j | 0 <= j < n && names[j].Some? ensures HasTagNamed(t'.tags, names[j].value) {
          assert pre[j] == names[j];
          var i :| 0 <= i < |t1.tags| && t1.tags[i].name == names[j].value;
          assert t'.tags[i] == t1.tags[..|t1.tags|][i];
        }
      } else {
        forall j | 0 <= j < n && names[j].Some? ensures HasTagNamed(t1.tags, names[j].value) {
          assert pre[j] == names[j];
        }
      }
    }
  }

  /** When every submitted name already exists, the new-tag loop changes nothing: an existing tag
      is not attached to the post. */
  lemma {:induction false} ExistingTagsNotAttached(t: Store, postId: int, names: seq<Option<string>>)
    requires forall j :: 0 <= j < |names| && names[j].Some? ==> HasTagNamed(t.tags, names[j].value)
    ensures AddTags(t, postId, names) == t
    decreases |names|
  {
    if |names| > 0 {
      var n := |names| - 1;
      var pre := names[..n];
      forall j | 0 <= j < |pre| && pre[j].Some? ensures HasTagNamed(t.tags, pre[j].value) {
        assert pre[j] == names[j];
      }
      ExistingTagsNotAttached(t, postId, pre);
    }
  }

  /** The organisation form's new tags: only lower-case tag names are created, each is attached to
      the post by one new `post_tags` row and no other row is added, tag names stay unique, and
      every submitted name has a tag afterwards. */
  lemma OrgTagsSpec(t: Store, postId: int, newTags: string)
    requires UniqueTagNames(t.tags)
    ensures var t' := OrgTags(t, postId, newTags);
            && t' == t.(tags := t'.tags, postTags := t'.postTags)
            && |t.tags| <= |t'.tags| && t'.tags[..|t.tags|] == t.tags
            && UniqueTagNames(t'.tags)
            && (forall i :: |t.tags| <= i < |t'.tags| ==> TagShaped(t'.tags[i].name))
            && t'.postTags == t.postTags + TagLinks(postId, t'.tags[|t.tags|..])
            && (!Truthy(newTags) ==> t' == t)
            && (Truthy(newTags) ==> forall j :: 0 <= j < |Explode(',', newTags)| ==>
                  var name := NormalizedTag(Explode(',', newTags)[j]);
                  name.Some? ==> HasTagNamed(t'.tags, name.value))
  {
    if Truthy(newTags) {
      var names := NormalizedTags(Explode(',', newTags));
      AddTagsKeepNamesUnique(t, postId, names);
      NormalizedTagsShaped(Explode(',', newTags));
      NewTagsShaped(t, postId, names);
      AddTagsComplete(t, postId, names);
      AddTagsLinks(t, postId, names);
    } else {
      assert t.tags[|t.tags|..] == [];
    }
  }

  /** Every tag the loop creates is one of the names it is given. */
  lemma NewTagsShaped(t: Store, postId: int, names: seq<Option<string>>)
    requires UniqueTagNames(t.tags)
    requires forall j :: 0 <= j < |names| && names[j].Some? ==> TagShaped(names[j].value)
    ensures var t' := AddTags(t, postId, names);
            forall i :: |t.tags| <= i < |t'.tags| ==> TagShaped(t'.tags[i].name)
  {
    AddTagsCreatesNamed(t, postId, names);
    var t' := AddTags(t, postId, names);
    forall i | |t.tags| <= i < |t'.tags| ensures TagShaped(t'.tags[i].name) {
      var x := Some(t'.tags[i].name);
      assert x in names;
      var j :| 0 <= j < |names| && names[j] == x;
    }
  }

  /** Every normalized name is a lower-case tag name. */
  lemma NormalizedTagsShaped(parts: seq<string>)
    ensures var names := NormalizedTags(parts);
            forall j :: 0 <= j < |names| && names[j].Some? ==> TagShaped(names[j].value)
  {
    forall j | 0 <= j < |parts| && NormalizedTag(parts[j]).Some?
      ensures TagShaped(NormalizedTag(parts[j]).value)
    {
      NormalizedTagShape(parts[j]);
    }
  }

  lemma FilterCons(c: char, rest: string)
    ensures Filter([c] + rest, IsTagChar) == (if IsTagChar(c) then [c] else []) + Filter(rest, IsTagChar)
  {
    assert ([c] + rest)[1..] == rest;
  }

  /** Punctuation is dropped before the length check: `C#` leaves one character and is not kept
      as a tag. */
  lemma ShortTagDropped()
    ensures NormalizedTag("C#") == None
  {
    FilterCons('#', "");
    FilterCons('C', "#");
    assert "C#" == ['C'] + "#";
    var kept := Filter("C#", IsTagChar);
    assert kept == "C";
    assert |Lower(Trim(kept))| <= 1;
  }

  /** The organisation form saves the post's lookups, title, slug and hidden flag and the routes of a
      retitle, and adds only tags; it fails, changing nothing, exactly when the title changed and
      the post has no default route. */
  lemma OrgSavesPost(t: Store, k: nat, f: OrgForm, hashtagSaved: bool, now: int, cfg: Config)
    requires k < |t.posts| && UniqueTagNames(t.tags)
    ensures var res := UpdateOrg(t, k, f, hashtagSaved, now, cfg);
            && (res.1 == Failure <==> t.posts[k].title != f.title && DefaultRoute(t.routes, t.posts[k].id).None?)
            && (res.1 == Failure ==> res.0 == t)
    ensures var res := UpdateOrg(t, k, f, hashtagSaved, now, cfg);
            res.1 != Failure ==>
              && res.0.posts == t.posts[k := OrgPost(t.posts[k], f, now, cfg)]
              && res.0.routes == OrgRoutes(t.routes, t.posts[k], f).value
              && res.0.revisions == t.revisions && res.0.postPermissions == t.postPermissions
              && res.0.tags[..|t.tags|] == t.tags
  {
    var p := t.posts[k];
    var routes := OrgRoutes(t.routes, p, f);
    if routes.Some? {
      var t1 := t.(routes := routes.value, posts := t.posts[k := OrgPost(p, f, now, cfg)]);
      var t2 := OrgTags(t1, p.id, f.newTags);
      assert UpdateOrg(t, k, f, hashtagSaved, now, cfg) ==
             (t2, if hashtagSaved then Text("preferences saved") else Text("ERROR: Hashtag already exists"));
      assert t2.posts == t1.posts && t2.routes == t1.routes;
      assert t2.tags[..|t.tags|] == t.tags;
    } else {
      assert p.title != f.title;
    }
  }

  // ---------------------------------------------------------------- createPost

  /** The id of the first mode whose constant is `default`. */
  function DefaultMode(modes: seq<Lookup>): (r: Option<int>)
    ensures r.Some? ==> exists i :: 0 <= i < |modes| && modes[i].constant == "default" && modes[i].id == r.value
    ensures r.None? ==> forall i :: 0 <= i < |modes| ==> modes[i].constant != "default"
    decreases |modes|
  {
    if |modes| == 0 then None
    else if modes[0].constant == "default" then Some(modes[0].id)
    else
      assert forall i :: 0 < i < |modes| ==> modes[i] == modes[1..][i - 1];
      DefaultMode(modes[1..])
  }

  /** The new-post form. */
  datatype NewPostForm = NewPostForm(formatId: int, typeId: int, framework: Option<int>, title: string, slug: string)

  /** The row `createPost` inserts: empty encrypted content and teaser, every flag off, the default
      mode, the never-indexed clock and the caller as creator and last editor. */
  function NewPostRow(id: int, guid: string, f: NewPostForm, modeId: int, userId: int, now: int, cfg: Config): PostRow
  {
    PostRow(id, guid, f.title, f.slug, cfg.encrypt(""), cfg.encrypt(""), f.formatId, f.typeId,
            FrameworkFor(f.typeId, f.framework, cfg.appType), modeId, false, false, false, false, None,
            false, false, 0, NeverIndexed, userId, userId, now, now)
  }

  /** The tables and answer of `createPost`. `canCreate` is the caller's global `create`
      permission and `guid` the generated UUID. */
  function CreatePostResult(t: Store, canCreate: bool, f: NewPostForm, caller: Caller, guid: string, now: int,
                            cfg: Config): (Store, Response)
  {
    if !canCreate then (t, Denied)
    else match DefaultMode(t.modes)
      case None => (t, Failure)
      case Some(modeId) =>
        var id := NextId(Ids(t.posts, PostKey));
        (t.(posts := t.posts + [NewPostRow(id, guid, f, modeId, caller.userId, now, cfg)],
            routes := t.routes + [Route(NextId(Ids(t.routes, RouteKey)), id, f.slug, false, false, true)]),
         RedirectToEdit(id))
  }

  /** `createPost`. */
  method CreatePost(db: Database, canCreate: bool, f: NewPostForm, caller: Caller, guid: string, now: int, cfg: Config)
    returns (r: Response)
    modifies db
    ensures (db.tables, r) == CreatePostResult(old(db.tables), canCreate, f, caller, guid, now, cfg)
  {
    if !canCreate {
      return Denied;
    }
    var modeId := DefaultMode(db.tables.modes);
    if modeId.None? {
      return Failure;
    }
    var id := NextId(Ids(db.tables.posts, PostKey));
    var post := NewPostRow(id, guid, f, modeId.value, caller.userId, now, cfg);
    db.tables := db.tables.(posts := db.tables.posts + [post]);
    var route := Route(NextId(Ids(db.tables.routes, RouteKey)), id, f.slug, false, false, true);
    db.tables := db.tables.(routes := db.tables.routes + [route]);
    r := RedirectToEdit(id);
  }

  /** Creation needs the `create` permission and a default mode, and otherwise changes nothing. */
  lemma CreateRefused(t: Store, canCreate: bool, f: NewPostForm, caller: Caller, guid: string, now: int, cfg: Config)
    ensures var (t', r) := CreatePostResult(t, canCreate, f, caller, guid, now, cfg);
            && (r == Denied <==> !canCreate)
            && (r == Failure <==> canCreate && forall i :: 0 <= i < |t.modes| ==> t.modes[i].constant != "default")
            && (!r.RedirectToEdit? ==> t' == t)
  {
  }

  /** The created post has a fresh id, is found under it and keeps post ids unique; it starts
      with content and teaser that decrypt to nothing, every flag off, and the caller as creator. */
  lemma CreatedPostRow(t: Store, f: NewPostForm, caller: Caller, guid: string, now: int, cfg: Config)
    requires DefaultMode(t.modes).Some?
    ensures var res := CreatePostResult(t, true, f, caller, guid, now, cfg);
            && res.1.RedirectToEdit?
            && |res.0.posts| == |t.posts| + 1
            && (forall i :: 0 <= i < |t.posts| ==> t.posts[i].id != res.1.postId)
            && FindPost(res.0.posts, res.1.postId) == Some(|t.posts|)
            && (UniquePostIds(t.posts) ==> UniquePostIds(res.0.posts))
    ensures var p := CreatePostResult(t, true, f, caller, guid, now, cfg).0.posts[|t.posts|];
            && (CipherInverts(cfg) ==> cfg.decrypt(p.content) == "" && cfg.decrypt(p.teaser) == "")
            && p.createdBy == caller.userId && p.updatedBy == caller.userId
            && !p.deleted && !p.hidden && !p.shared && !p.symlink && p.indexedAt == NeverIndexed
            && !p.containsScript && !p.containsHtml && p.workbench.None? && p.clicks == 0
            && p.modeId == DefaultMode(t.modes).value
    ensures var p := CreatePostResult(t, true, f, caller, guid, now, cfg).0.posts[|t.posts|];
            && p.uuid == guid && p.title == f.title && p.slug == f.slug
            && p.formatId == f.formatId && p.typeId == f.typeId
            && p.frameworkId == (if f.typeId == cfg.appType then f.framework else None)
            && p.createdAt == now && p.updatedAt == now
  {
    var id := NextId(Ids(t.posts, PostKey));
    AppendFreshPost(t.posts, NewPostRow(id, guid, f, DefaultMode(t.modes).value, caller.userId, now, cfg));
  }

  /** Appending a post whose id no post has makes it the one found under that id. */
  lemma AppendFreshPost(posts: seq<PostRow>, p: PostRow)
    requires forall i :: 0 <= i < |posts| ==> posts[i].id != p.id
    ensures FindPost(posts + [p], p.id) == Some(|posts|)
    ensures UniquePostIds(posts) ==> UniquePostIds(posts + [p])
  {
    var ps := posts + [p];
    assert forall j :: 0 <= j < |posts| ==> ps[j].id != p.id;
    assert ps[|posts|] == p;
    assert ps[|posts|].id == p.id;
    assert FindPost(ps, p.id).Some?;
    if UniquePostIds(posts) {
      forall i, j | 0 <= i < j < |ps| ensures ps[i].id != ps[j].id {
        if j < |posts| {
          assert ps[i] == posts[i] && ps[j] == posts[j];
        }
      }
    }
  }

  /** Its default route is the new route, with the submitted slug and not static, provided no
      route already pointed at the new id. */
  lemma CreatedPostRoute(t: Store, f: NewPostForm, caller: Caller, guid: string, now: int, cfg: Config)
    requires DefaultMode(t.modes).Some?
    requires forall i :: 0 <= i < |t.routes| ==> t.routes[i].postId <= MaxOr(Ids(t.posts, PostKey), 0)
    ensures var res := CreatePostResult(t, true, f, caller, guid, now, cfg);
            && DefaultRoute(res.0.routes, res.1.postId) == Some(|t.routes|)
            && res.0.routes[|t.routes|].slug == f.slug && !res.0.routes[|t.routes|].isStatic
  {
    var res := CreatePostResult(t, true, f, caller, guid, now, cfg);
    var id := res.1.postId;
    var routes := res.0.routes;
    assert routes == t.routes + [routes[|t.routes|]];
    assert forall j :: 0 <= j < |t.routes| ==> routes[j] == t.routes[j];
    assert routes[|t.routes|].postId == id && routes[|t.routes|].isDefault;
  }

  /** The creator may at once edit the post just created. */
  lemma CreatedPostIsEditable(t: Store, f: NewPostForm, caller: Caller, guid: string, now: int, cfg: Config)
    requires DefaultMode(t.modes).Some?
    ensures var res := CreatePostResult(t, true, f, caller, guid, now, cfg);
            Guard(res.0, res.1.postId, true, caller) == None
  {
    CreatedPostRow(t, f, caller, guid, now, cfg);
    var res := CreatePostResult(t, true, f, caller, guid, now, cfg);
    GuardRule(res.0, res.1.postId, true, caller);
  }
}
