/** The wiki's tables as in-memory rows, the caller's identity, and the configuration and external
    collaborators (encryption, hashing, tag stripping, GUID expansion) passed in as values. */
module Schema {
  import opened Common

  /** A row of `posts`. `content` and `teaser` are stored encrypted. */
  datatype PostRow = PostRow(
    id: int,
    uuid: string,
    title: string,
    slug: string,
    content: string,
    teaser: string,
    formatId: int,
    typeId: int,
    frameworkId: Option<int>,
    modeId: int,
    hidden: bool,
    deleted: bool,
    shared: bool,
    symlink: bool,
    workbench: Option<string>,
    containsScript: bool,
    containsHtml: bool,
    clicks: int,
    indexedAt: string,
    createdBy: int,
    updatedBy: int,
    createdAt: int,
    updatedAt: int)

  /** `permissions`: a named capability (`read`, `write`, `comment`, ...). */
  datatype Permission = Permission(id: int, constant: string, userPermission: bool)
  /** `post_permissions`: grants a permission on one post to every holder of a role. */
  datatype PostPermission = PostPermission(postId: int, permissionId: int, roleId: int)
  datatype Role = Role(id: int, name: string)
  datatype UserRole = UserRole(userId: int, roleId: int)
  /** `post_indexes`: one posting of the inverted index. */
  datatype PostIndex = PostIndex(postId: int, word: string, weight: int)
  datatype Badge = Badge(id: int, name: string, image: string)
  datatype Tag = Tag(id: int, name: string)
  datatype PostBadge = PostBadge(postId: int, badgeId: int)
  datatype PostTag = PostTag(postId: int, tagId: int)
  /** `formats`, `types`, `frameworks` and `modes` share this shape. */
  datatype Lookup = Lookup(id: int, name: string, constant: string)
  /** `revisions`: revision 0 is an uncommitted draft. */
  datatype Revision = Revision(
    id: int, postId: int, revision: nat, title: string, content: string, createdBy: int, createdAt: int)
  /** `router`: a post's URL routes; one of them is its default route. */
  datatype Route = Route(id: int, postId: int, slug: string, isStatic: bool, disabled: bool, isDefault: bool)

  /** The keys of a table's rows, in table order. */
  function Ids<T>(rows: seq<T>, key: T -> int): (r: seq<int>)
    ensures |r| == |rows| && forall i :: 0 <= i < |rows| ==> r[i] == key(rows[i])
  {
    seq(|rows|, i requires 0 <= i < |rows| => key(rows[i]))
  }

  /** The primary keys of the tables that `Ids` is taken of. */
  function PostKey(p: PostRow): int
  {
    p.id
  }

  function RevisionKey(r: Revision): int
  {
    r.id
  }

  function TagKey(t: Tag): int
  {
    t.id
  }

  function RouteKey(r: Route): int
  {
    r.id
  }
  datatype PostLock = PostLock(postId: int, userId: int)
  datatype PostRead = PostRead(postId: int, userId: int)

  /** Every table the core reads or writes, each in table order. */
  datatype Store = Store(
    posts: seq<PostRow>,
    permissions: seq<Permission>,
    postPermissions: seq<PostPermission>,
    roles: seq<Role>,
    userRoles: seq<UserRole>,
    postIndexes: seq<PostIndex>,
    badges: seq<Badge>,
    postBadges: seq<PostBadge>,
    tags: seq<Tag>,
    postTags: seq<PostTag>,
    formats: seq<Lookup>,
    types: seq<Lookup>,
    frameworks: seq<Lookup>,
    modes: seq<Lookup>,
    revisions: seq<Revision>,
    routes: seq<Route>,
    postLocks: seq<PostLock>,
    postReads: seq<PostRead>)

  /** The authenticated caller, as `Auth::user()->id` and `Auth::admin()`. */
  datatype Caller = Caller(userId: int, isAdmin: bool)

  /** Configuration values and the external collaborators the core calls. */
  datatype Config = Config(
    encrypt: string -> string,
    decrypt: string -> string,
    md5: string -> string,
    stripTags: string -> string,
    uuidToGuid: string -> string,
    teaserLength: nat,
    useEncryption: bool,
    appType: int,
    reservedRoutes: seq<string>)

  /** `mrcore.wiki.teaser_length` when it is not configured. */
  const DefaultTeaserLength: nat := 500

  /** The "never indexed" clock a new post starts with. */
  const NeverIndexed: string := "1900-01-01 00:00:00"

  /** What the encryption collaborator is assumed to provide: decryption undoes encryption. */
  ghost predicate CipherInverts(c: Config)
  {
    forall x :: c.decrypt(c.encrypt(x)) == x
  }

  /** Posts are keyed by `id`. */
  predicate UniquePostIds(posts: seq<PostRow>)
  {
    forall i, j :: 0 <= i < j < |posts| ==> posts[i].id != posts[j].id
  }

  /** Index of the first post with this id (`Post::find`). */
  function FindPost(posts: seq<PostRow>, id: int): (r: Option<nat>)
    ensures r.Some? ==> r.value < |posts| && posts[r.value].id == id
    ensures r.Some? ==> forall j :: 0 <= j < r.value ==> posts[j].id != id
    ensures r.None? ==> forall j :: 0 <= j < |posts| ==> posts[j].id != id
  {
    if |posts| == 0 then None
    else if posts[0].id == id then Some(0)
    else match FindPost(posts[1..], id)
      case None => None
      case Some(k) => Some(k + 1)
  }

  /** The database connection: the tables, replaced wholesale by each statement. */
  class Database {
    var tables: Store

    constructor (initial: Store)
      ensures tables == initial
    {
      tables := initial;
    }
  }
}
