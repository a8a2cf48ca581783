/** The `Post` model object: its content with the decrypted / parsed / prepared flags, the
    memoized permission list, click counting and the cascading delete. */
module PostModel {
  import opened Common
  import opened Strings
  import opened Schema
  import opened Permissions
  import opened Listing

  /** Every field of a `Post` object, as one value. */
  datatype PostState = PostState(
    id: Option<int>,
    uuid: string,
    shared: bool,
    createdBy: int,
    content: string,
    clicks: int,
    permissions: Option<seq<string>>,
    decrypted: bool,
    parsed: bool,
    prepared: bool)

  /** A global post prepended by `prepare`: its id and its already parsed content. */
  datatype GlobalPost = GlobalPost(id: int, parsed: string)

  // ---------------------------------------------------------------- state transitions

  function WithDecrypted(s: PostState, cfg: Config): PostState
  {
    s.(content := cfg.decrypt(s.content), decrypted := true)
  }

  function WithEncrypted(s: PostState, cfg: Config): PostState
  {
    s.(content := cfg.encrypt(s.content), decrypted := false)
  }

  /** `parse($data)` with the parser already chosen (`render`): the new state and the return value. */
  function ParseStep(s: PostState, data: Option<string>, render: string -> string, cfg: Config): (PostState, Option<string>)
  {
    if !s.parsed || data.None? then
      var d := if data.None? && !s.decrypted then WithDecrypted(s, cfg) else s;
      if data.Some? then (d.(parsed := true), Some(render(data.value)))
      else (d.(parsed := true, content := render(d.content)), None)
    else (s, None)
  }

  /** Prepends a global post's parsed content unless it is this very post. */
  function WithGlobal(s: PostState, g: Option<GlobalPost>): PostState
  {
    if g.Some? && s.id != Some(g.value.id) then s.(content := g.value.parsed + s.content) else s
  }

  /** `prepare($includeGlobals)`: parse once, then put the user's and then the site's global post
      in front. */
  function PrepareStep(s: PostState, includeGlobals: bool, userGlobal: Option<GlobalPost>,
                       siteGlobal: Option<GlobalPost>, render: string -> string, cfg: Config): PostState
  {
    if s.prepared then s
    else
      var p := ParseStep(s, None, render, cfg).0;
      var g := if includeGlobals then WithGlobal(WithGlobal(p, userGlobal), siteGlobal) else p;
      g.(prepared := true)
  }

  /** The `clicks` column after `UPDATE posts SET clicks = clicks + 1 WHERE id = ?`; an unsaved post
      matches no row. */
  function ClickedRows(posts: seq<PostRow>, id: Option<int>): (r: seq<PostRow>)
  {
    seq(|posts|, i requires 0 <= i < |posts| =>
      if id == Some(posts[i].id) then posts[i].(clicks := posts[i].clicks + 1) else posts[i])
  }

  /** The tables after `deletePost`: every row that references the post, then the post itself. */
  function Cascade(t: Store, id: int): Store
  {
    t.(postBadges := Filter(t.postBadges, (r: PostBadge) => r.postId != id),
       postTags := Filter(t.postTags, (r: PostTag) => r.postId != id),
       postIndexes := Filter(t.postIndexes, (r: PostIndex) => r.postId != id),
       postLocks := Filter(t.postLocks, (r: PostLock) => r.postId != id),
       postPermissions := Filter(t.postPermissions, (r: PostPermission) => r.postId != id),
       postReads := Filter(t.postReads, (r: PostRead) => r.postId != id),
       revisions := Filter(t.revisions, (r: Revision) => r.postId != id),
       routes := Filter(t.routes, (r: Route) => r.postId != id),
       posts := Filter(t.posts, (r: PostRow) => r.id != id))
  }

  // ---------------------------------------------------------------- the object

  class Post {
    var id: Option<int>
    var uuid: string
    var shared: bool
    var createdBy: int
    var content: string
    var clicks: int
    var permissions: Option<seq<string>>
    var decrypted: bool
    var parsed: bool
    var prepared: bool

    function State(): PostState
      reads this
    {
      PostState(id, uuid, shared, createdBy, content, clicks, permissions, decrypted, parsed, prepared)
    }

    /** A post loaded from its row: content still encrypted, nothing memoized. */
    constructor Load(row: PostRow)
      ensures State() == PostState(Some(row.id), row.uuid, row.shared, row.createdBy, row.content,
                                   row.clicks, None, false, false, false)
    {
      id := Some(row.id);
      uuid := row.uuid;
      shared := row.shared;
      createdBy := row.createdBy;
      content := row.content;
      clicks := row.clicks;
      permissions := None;
      decrypted := false;
      parsed := false;
      prepared := false;
    }

    method Decrypt(cfg: Config)
      modifies this
      ensures State() == WithDecrypted(old(State()), cfg)
    {
      content := cfg.decrypt(content);
      decrypted := true;
    }

    method Encrypt(cfg: Config)
      modifies this
      ensures State() == WithEncrypted(old(State()), cfg)
    {
      content := cfg.encrypt(content);
      decrypted := false;
    }

    method Parse(data: Option<string>, render: string -> string, cfg: Config) returns (out: Option<string>)
      modifies this
      ensures (State(), out) == ParseStep(old(State()), data, render, cfg)
    {
      out := None;
      if !parsed || data.None? {
        if data.None? && !decrypted {
          Decrypt(cfg);
        }
        parsed := true;
        if data.Some? {
          out := Some(render(data.value));
        } else {
          content := render(content);
        }
      }
    }

    method Prepare(includeGlobals: bool, userGlobal: Option<GlobalPost>, siteGlobal: Option<GlobalPost>,
                   render: string -> string, cfg: Config)
      modifies this
      ensures State() == PrepareStep(old(State()), includeGlobals, userGlobal, siteGlobal, render, cfg)
    {
      if !prepared {
        var _ := Parse(None, render, cfg);
        if includeGlobals {
          if userGlobal.Some? && id != Some(userGlobal.value.id) {
            content := userGlobal.value.parsed + content;
          }
          if siteGlobal.Some? && id != Some(siteGlobal.value.id) {
            content := siteGlobal.value.parsed + content;
          }
        }
        prepared := true;
      }
    }

    /** `getPermissions`: an admin gets (and memoizes) the empty list; anyone else gets the memoized
        list if there is one, and otherwise the resolved list, which is memoized. */
    method GetPermissions(db: Database, caller: Caller) returns (r: seq<string>)
      modifies this
      ensures caller.isAdmin ==> r == [] && State() == old(State()).(permissions := Some([]))
      ensures !caller.isAdmin && old(permissions).Some? ==> r == old(permissions).value && State() == old(State())
      ensures !caller.isAdmin && old(permissions).None? ==>
                r == ResolvedPermissions(db.tables, id, caller.userId) && State() == old(State()).(permissions := Some(r))
    {
      if caller.isAdmin {
        permissions := Some([]);
      } else if permissions.None? {
        permissions := Some(ResolvedPermissions(db.tables, id, caller.userId));
      }
      r := permissions.value;
    }

    /** `hasPermission($constant)`: admins and the creator pass without touching the memo. */
    method HasPermission(db: Database, caller: Caller, constant: string) returns (b: bool)
      modifies this
      ensures var known := if old(permissions).Some? then old(permissions).value
                           else ResolvedPermissions(db.tables, id, caller.userId);
              b == Grants(createdBy, caller, known, constant)
      ensures caller.isAdmin || createdBy == caller.userId ==> State() == old(State())
      ensures !caller.isAdmin && createdBy != caller.userId && old(permissions).None? ==>
                State() == old(State()).(permissions := Some(ResolvedPermissions(db.tables, id, caller.userId)))
      ensures old(permissions).Some? ==> State() == old(State())
    {
      if caller.isAdmin {
        b := true;
      } else if createdBy == caller.userId {
        b := true;
      } else {
        var perms := GetPermissions(db, caller);
        b := Lower(constant) in perms;
      }
    }

    /** `uuidPermission`: `hasPermission('read')` first, then the shared-UUID check against the
        request's `uuid` input and the session's remembered UUIDs, which it returns updated. */
    method UuidPermission(db: Database, caller: Caller, input: Option<string>, session: set<string>, cfg: Config)
      returns (granted: bool, session': set<string>)
      modifies this
      ensures var known := if old(permissions).Some? then old(permissions).value
                           else ResolvedPermissions(db.tables, id, caller.userId);
              UuidOutcome(granted, session') ==
                UuidAccess(Grants(createdBy, caller, known, "read"), shared, uuid, input, session, cfg.uuidToGuid)
      ensures old(State()).(permissions := State().permissions) == State()
    {
      var readable := HasPermission(db, caller, "read");
      var outcome := UuidAccess(readable, shared, uuid, input, session, cfg.uuidToGuid);
      granted, session' := outcome.granted, outcome.session;
    }

    /** `permissions()`: this post's role-name to `R`/`W` markers map. */
    method RolePermissions(db: Database) returns (m: map<string, string>)
      ensures id.None? ==> m == map[]
      ensures id.Some? ==>
                m == MarkersOf(PermissionJoin(db.tables.postPermissions, db.tables.roles, db.tables.permissions,
                                              [id.value]), id.value)
    {
      if id.None? {
        m := map[];
      } else {
        var t := db.tables;
        var rows := PermissionJoin(t.postPermissions, t.roles, t.permissions, [id.value]);
        m := CollectMarkers(rows, id.value);
      }
    }

    /** `incrementClicks`: one more click in the table and in this object. */
    method IncrementClicks(db: Database)
      modifies this, db
      ensures db.tables == old(db.tables).(posts := ClickedRows(old(db.tables.posts), id))
      ensures State() == old(State()).(clicks := old(clicks) + 1)
    {
      db.tables := db.tables.(posts := ClickedRows(db.tables.posts, id));
      clicks := clicks + 1;
    }

    /** `deletePost`: an unsaved post deletes nothing. */
    method DeletePost(db: Database)
      modifies db
      ensures id.None? ==> db.tables == old(db.tables)
      ensures id.Some? ==> db.tables == Cascade(old(db.tables), id.value)
    {
      if id.Some? {
        db.tables := Cascade(db.tables, id.value);
      }
    }
  }

  // ---------------------------------------------------------------- properties

  /** Decrypting what `encrypt` produced restores the decrypted content and flag. */
  lemma EncryptDecryptRoundTrip(s: PostState, cfg: Config)
    requires CipherInverts(cfg) && s.decrypted
    ensures WithDecrypted(WithEncrypted(s, cfg), cfg) == s
  {
  }

  /** Parsing with no data renders the decrypted content, decrypting the stored content only when it
      was not decrypted yet; a repeated call renders the rendered content once more. */
  lemma ParseWithoutData(s: PostState, render: string -> string, cfg: Config)
    ensures var r := ParseStep(s, None, render, cfg);
            && r.1 == None && r.0.parsed && r.0.decrypted
            && r.0.content == render(if s.decrypted then s.content else cfg.decrypt(s.content))
            && r.0.(content := s.content) == s.(parsed := true, decrypted := true)
            && ParseStep(r.0, None, render, cfg) == (r.0.(content := render(r.0.content)), None)
  {
  }

  /** Given data is rendered and returned only on the object's first parse: content, flags and
      memo stay as they were, and any later call with data returns nothing. */
  lemma ParseDataOnlyOnce(s: PostState, d1: string, d2: string, render: string -> string, cfg: Config)
    requires !s.parsed
    ensures var r1 := ParseStep(s, Some(d1), render, cfg);
            && r1 == (s.(parsed := true), Some(render(d1)))
            && ParseStep(r1.0, Some(d2), render, cfg) == (r1.0, None)
  {
  }

  /** `prepare` is idempotent: once prepared, further calls change nothing. */
  lemma PrepareIdempotent(s: PostState, includeGlobals: bool, ug: Option<GlobalPost>, sg: Option<GlobalPost>,
                          render: string -> string, cfg: Config)
    ensures var p := PrepareStep(s, includeGlobals, ug, sg, render, cfg);
            p.prepared && PrepareStep(p, includeGlobals, ug, sg, render, cfg) == p
  {
  }

  /** With both globals present and distinct from this post, the prepared content is the site global,
      then the user global, then the post's own parsed content. */
  lemma PrepareOrder(s: PostState, ug: GlobalPost, sg: GlobalPost, render: string -> string, cfg: Config)
    requires !s.prepared && s.id != Some(ug.id) && s.id != Some(sg.id)
    ensures PrepareStep(s, true, Some(ug), Some(sg), render, cfg).content ==
            sg.parsed + ug.parsed + ParseStep(s, None, render, cfg).0.content
  {
  }

  /** On keyed posts, one click adds one to that post's row and changes nothing else. */
  lemma ClickOnlyThatPost(posts: seq<PostRow>, id: int, k: nat)
    requires UniquePostIds(posts) && k < |posts| && posts[k].id == id
    ensures var r := ClickedRows(posts, Some(id));
            && |r| == |posts|
            && r[k] == posts[k].(clicks := posts[k].clicks + 1)
            && (forall i :: 0 <= i < |posts| && i != k ==> r[i] == posts[i])
            && UniquePostIds(r)
  {
  }

  /** An unsaved post's click changes no row. */
  lemma ClickUnsavedNoRow(posts: seq<PostRow>)
    ensures ClickedRows(posts, None) == posts
  {
  }

  /** After the cascade no row of the cleaned tables references the post and the post row is gone. */
  lemma CascadeRemovesReferences(t: Store, id: int)
    ensures var c := Cascade(t, id);
            && (forall i :: 0 <= i < |c.postBadges| ==> c.postBadges[i].postId != id)
            && (forall i :: 0 <= i < |c.postTags| ==> c.postTags[i].postId != id)
            && (forall i :: 0 <= i < |c.postIndexes| ==> c.postIndexes[i].postId != id)
            && (forall i :: 0 <= i < |c.postLocks| ==> c.postLocks[i].postId != id)
            && (forall i :: 0 <= i < |c.postPermissions| ==> c.postPermissions[i].postId != id)
            && (forall i :: 0 <= i < |c.postReads| ==> c.postReads[i].postId != id)
            && (forall i :: 0 <= i < |c.revisions| ==> c.revisions[i].postId != id)
            && (forall i :: 0 <= i < |c.routes| ==> c.routes[i].postId != id)
            && (forall i :: 0 <= i < |c.posts| ==> c.posts[i].id != id)
  {
  }

  /** The cascade keeps every row of another post and every table it does not clean. */
  lemma CascadeKeepsOthers(t: Store, id: int)
    ensures var c := Cascade(t, id);
            && (forall i :: 0 <= i < |t.postTags| && t.postTags[i].postId != id ==> t.postTags[i] in c.postTags)
            && (forall i :: 0 <= i < |t.postBadges| && t.postBadges[i].postId != id ==> t.postBadges[i] in c.postBadges)
            && (forall i :: 0 <= i < |t.postIndexes| && t.postIndexes[i].postId != id ==> t.postIndexes[i] in c.postIndexes)
            && (forall i :: 0 <= i < |t.postPermissions| && t.postPermissions[i].postId != id ==>
                  t.postPermissions[i] in c.postPermissions)
            && (forall i :: 0 <= i < |t.revisions| && t.revisions[i].postId != id ==> t.revisions[i] in c.revisions)
            && (forall i :: 0 <= i < |t.routes| && t.routes[i].postId != id ==> t.routes[i] in c.routes)
            && (forall i :: 0 <= i < |t.posts| && t.posts[i].id != id ==> t.posts[i] in c.posts)
            && c.(postBadges := t.postBadges, postTags := t.postTags, postIndexes := t.postIndexes,
                  postLocks := t.postLocks, postPermissions := t.postPermissions, postReads := t.postReads,
                  revisions := t.revisions, routes := t.routes, posts := t.posts) == t
  {
  }

  /** Once the post is deleted, no user resolves any permission on it. */
  lemma DeletedPostGrantsNothing(t: Store, id: int, userId: int)
    ensures forall x :: x !in ResolvedPermissions(Cascade(t, id), Some(id), userId)
  {
    var c := Cascade(t, id);
    forall x ensures x !in ResolvedPermissions(c, Some(id), userId) {
      ResolvedMembership(c, id, userId, x);
      forall i, j, k ensures !GrantRow(c, i, j, k, id, userId, x) {
        if 0 <= i < |c.postPermissions| {
          assert c.postPermissions[i].postId != id;
        }
      }
    }
  }
}
