/** The per-post permission resolver of `Post`: which permission constants a user holds on a post
    through its `post_permissions` rows, the `hasPermission` decision with its admin and creator
    short-circuits, and the shared-UUID access check. */
module Permissions {
  import opened Common
  import opened Strings
  import opened Schema

  /** One row of `post_permissions JOIN permissions JOIN user_roles` that grants constant `c` on
      post `postId` to user `userId` (indices into the three tables). */
  predicate GrantRow(db: Store, i: int, j: int, k: int, postId: int, userId: int, c: string)
  {
    && 0 <= i < |db.postPermissions| && 0 <= j < |db.permissions| && 0 <= k < |db.userRoles|
    && db.postPermissions[i].postId == postId
    && db.permissions[j].id == db.postPermissions[i].permissionId
    && db.userRoles[k].roleId == db.postPermissions[i].roleId
    && db.userRoles[k].userId == userId
    && db.permissions[j].constant == c
  }

  predicate HoldsRole(userRoles: seq<UserRole>, roleId: int, userId: int)
  {
    exists k :: 0 <= k < |userRoles| && userRoles[k].roleId == roleId && userRoles[k].userId == userId
  }

  /** Constants of the permission rows with this id (at most one: `id` is the key). */
  function ConstantsWithId(perms: seq<Permission>, permissionId: int): (r: seq<string>)
    ensures forall c :: c in r <==> exists j :: 0 <= j < |perms| && perms[j].id == permissionId && perms[j].constant == c
  {
    if |perms| == 0 then []
    else
      var rest := ConstantsWithId(perms[1..], permissionId);
      assert forall j :: 0 < j < |perms| ==> perms[j] == perms[1..][j - 1];
      if perms[0].id == permissionId then [perms[0].constant] + rest else rest
  }

  /** The joined constants for the rows `pps` of `post_permissions`, before `DISTINCT`. */
  function JoinedConstants(db: Store, pps: seq<PostPermission>, postId: int, userId: int): seq<string>
  {
    if |pps| == 0 then []
    else
      var pp := pps[0];
      var here := if pp.postId == postId && HoldsRole(db.userRoles, pp.roleId, userId)
        then ConstantsWithId(db.permissions, pp.permissionId) else [];
      here + JoinedConstants(db, pps[1..], postId, userId)
  }

  /** `getPermissions` when nothing is memoized: the distinct constants joined from this post's
      rows whose role the user holds. An unsaved post (no id) matches no row. */
  function ResolvedPermissions(db: Store, postId: Option<int>, userId: int): seq<string>
  {
    if postId.None? then [] else Dedup(JoinedConstants(db, db.postPermissions, postId.value, userId))
  }

  lemma {:induction false} JoinedConstantsMembership(db: Store, from: nat, postId: int, userId: int, c: string)
    requires from <= |db.postPermissions|
    ensures c in JoinedConstants(db, db.postPermissions[from..], postId, userId) <==>
            exists i, j, k :: from <= i && GrantRow(db, i, j, k, postId, userId, c)
    decreases |db.postPermissions| - from
  {
    var pps := db.postPermissions[from..];
    if from < |db.postPermissions| {
      var pp := db.postPermissions[from];
      assert pps[0] == pp;
      assert pps[1..] == db.postPermissions[from + 1..];
      JoinedConstantsMembership(db, from + 1, postId, userId, c);
      var here := if pp.postId == postId && HoldsRole(db.userRoles, pp.roleId, userId)
        then ConstantsWithId(db.permissions, pp.permissionId) else [];
      assert JoinedConstants(db, pps, postId, userId) == here + JoinedConstants(db, db.postPermissions[from + 1..], postId, userId);
      if c in here {
        var j :| 0 <= j < |db.permissions| && db.permissions[j].id == pp.permissionId && db.permissions[j].constant == c;
        var k :| 0 <= k < |db.userRoles| && db.userRoles[k].roleId == pp.roleId && db.userRoles[k].userId == userId;
        assert GrantRow(db, from, j, k, postId, userId, c);
      }
      if exists i, j, k :: from <= i && GrantRow(db, i, j, k, postId, userId, c) {
        var i, j, k :| from <= i && GrantRow(db, i, j, k, postId, userId, c);
        if i == from {
          assert HoldsRole(db.userRoles, pp.roleId, userId);
          assert c in ConstantsWithId(db.permissions, pp.permissionId);
        } else {
          assert from + 1 <= i;
        }
      }
    } else {
      assert pps == [];
    }
  }

  /** A constant is resolved for a user exactly when some joined row grants it. */
  lemma ResolvedMembership(db: Store, postId: int, userId: int, c: string)
    ensures c in ResolvedPermissions(db, Some(postId), userId) <==>
            exists i, j, k :: GrantRow(db, i, j, k, postId, userId, c)
  {
    JoinedConstantsMembership(db, 0, postId, userId, c);
    assert db.postPermissions[0..] == db.postPermissions;
    var joined := JoinedConstants(db, db.postPermissions, postId, userId);
    var r := Dedup(joined);
    if c in joined {
      var i :| 0 <= i < |joined| && joined[i] == c;
      assert c in r;
    }
    if c in r {
      var i :| 0 <= i < |r| && r[i] == c;
      assert c in joined;
    }
  }

  /** `hasPermission($constant)` once the permission list is known: admins and the post's creator
      always pass; anyone else passes iff the lower-cased constant is in the list. */
  predicate Grants(createdBy: int, caller: Caller, resolved: seq<string>, constant: string)
  {
    caller.isAdmin || createdBy == caller.userId || Lower(constant) in resolved
  }

  /** `hasPermission` on a freshly loaded post, stated through the joined rows. */
  lemma HasPermissionRule(db: Store, post: PostRow, caller: Caller, constant: string)
    ensures Grants(post.createdBy, caller, ResolvedPermissions(db, Some(post.id), caller.userId), constant) <==>
            || caller.isAdmin
            || post.createdBy == caller.userId
            || exists i, j, k :: GrantRow(db, i, j, k, post.id, caller.userId, Lower(constant))
  {
    ResolvedMembership(db, post.id, caller.userId, Lower(constant));
  }

  predicate HasNoPermissionRows(db: Store, postId: int)
  {
    forall i :: 0 <= i < |db.postPermissions| ==> db.postPermissions[i].postId != postId
  }

  /** A post with no `post_permissions` rows is open to its admin and its creator only. */
  lemma NoRowsOnlyAdminOrCreator(db: Store, post: PostRow, caller: Caller, constant: string)
    requires HasNoPermissionRows(db, post.id)
    ensures Grants(post.createdBy, caller, ResolvedPermissions(db, Some(post.id), caller.userId), constant) <==>
            caller.isAdmin || post.createdBy == caller.userId
  {
    HasPermissionRule(db, post, caller, constant);
    forall i, j, k ensures !GrantRow(db, i, j, k, post.id, caller.userId, Lower(constant)) {
      if 0 <= i < |db.postPermissions| {
        assert db.postPermissions[i].postId != post.id;
      }
    }
  }

  // ---------------------------------------------------------------- shared UUID access

  /** `Input::has('uuid')`: present and not blank. */
  predicate Supplied(input: Option<string>)
  {
    input.Some? && Trim(input.value) != ""
  }

  /** The supplied UUID as compared: a 32-character compact UUID is expanded to GUID form first. */
  function Expanded(uuid: string, toGuid: string -> string): string
  {
    if |uuid| == 32 then toGuid(uuid) else uuid
  }

  /** Outcome of `uuidPermission`: the decision and the session's remembered UUIDs afterwards. */
  datatype UuidOutcome = UuidOutcome(granted: bool, session: set<string>)

  /** `uuidPermission` once `hasPermission('read')` is known (`readable`). A supplied UUID is decisive
      on a shared post: it grants, and is remembered, iff it matches the post's UUID
      case-insensitively; otherwise a shared post whose UUID the session remembers is granted. */
  function UuidAccess(readable: bool, shared: bool, postUuid: string, input: Option<string>,
                      session: set<string>, toGuid: string -> string): (r: UuidOutcome)
    ensures r.granted ==> readable || shared
    ensures r.session - session <= (if Supplied(input) then {Expanded(input.value, toGuid)} else {})
    ensures session <= r.session
  {
    if readable then UuidOutcome(true, session)
    else if Supplied(input) && shared then
      var uuid := Expanded(input.value, toGuid);
      if EqualsCI(uuid, postUuid) then UuidOutcome(true, session + {uuid})
      else UuidOutcome(false, session)
    else if postUuid in session && shared then UuidOutcome(true, session)
    else UuidOutcome(false, session)
  }

  /** A post that is not shared is reachable through `uuidPermission` only by `hasPermission('read')`,
      and the session is left alone. */
  lemma UnsharedNeedsRead(readable: bool, postUuid: string, input: Option<string>,
                          session: set<string>, toGuid: string -> string)
    ensures UuidAccess(readable, false, postUuid, input, session, toGuid) == UuidOutcome(readable, session)
  {
  }

  /** On a shared post, a supplied UUID (canonical or compact) is granted and remembered exactly
      when its expansion matches the post's UUID ignoring case; a wrong UUID is refused even when
      the session already remembers the post. */
  lemma SuppliedUuidDecides(postUuid: string, uuid: string, session: set<string>, toGuid: string -> string)
    requires Trim(uuid) != ""
    ensures var r := UuidAccess(false, true, postUuid, Some(uuid), session, toGuid);
            && (r.granted <==> EqualsCI(Expanded(uuid, toGuid), postUuid))
            && r.session == (if r.granted then session + {Expanded(uuid, toGuid)} else session)
  {
  }

  /** Without a supplied UUID, a shared post is granted iff the session remembers its UUID exactly. */
  lemma SessionRemembers(postUuid: string, input: Option<string>, session: set<string>, toGuid: string -> string)
    requires !Supplied(input)
    ensures UuidAccess(false, true, postUuid, input, session, toGuid) == UuidOutcome(postUuid in session, session)
  {
  }
}
