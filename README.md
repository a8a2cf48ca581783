# Wiki post core: access, search, teaser, listing and editing

This project models the content engine of a PHP wiki. It covers two parts:

- the `Post` model (`Models/Post.php`):
  - the per-post permission resolver and its memo;
  - shared-UUID access;
  - the search and filter engine, in its current and older form;
  - the teaser extractor;
  - the listing decorator that attaches badges, tags and role markers to posts;
  - the object's decrypt/parse/prepare flags, click counting and cascading delete.
- the edit controller (`Http/Controllers/EditController.php`):
  - saving drafts and commits of a post;
  - replacing its permission rows;
  - soft and permanent delete, and undelete;
  - the advanced form (static route and workbench validation);
  - the organisation form (framework rule and new-tag normalisation);
  - post creation.

The database is a value of type `Schema.Store`. It holds every table as a sequence of rows, in table order. `Schema.Database` is the connection: each controller action is a method that `modifies` it. Each of those methods is proved equal to a specification function of the old tables. The properties the code promises are then proved about those functions as lemmas.

The authenticated caller (`userId`, `isAdmin`) is an explicit parameter. So are:

- the request inputs;
- the session's remembered UUIDs;
- the external collaborators, as function-typed fields of `Schema.Config`: encryption, md5, `strip_tags` and UUID expansion.

SQL joins are modelled by the number of joined rows each post produces (its multiplicity). A filter admits a post when that number is positive. `count(*)` and `sum(weight)` add these numbers up per group. This makes the duplicate-row behaviour of the joins visible.

Modules:

- `Common`, `Strings` and `Regex`: shared helpers. These are `Option`, ASCII case folding, PHP's `trim`/`substr`/`explode`/`is_numeric`/truthiness, and a left-to-right `preg_replace` over literal and lazy-span patterns.
- `Schema`: tables, caller, configuration, the `Database` class.
- `Permissions`: `getPermissions` (without the memo), `hasPermission`, `uuidPermission`.
- `PostModel`: the `Post` class with its fields, and the properties of its state transitions.
- `Teaser`: `createTeaser`.
- `Listing`: `getPostData` and `permissions()`.
- `SearchParams`, `Ordering` and `Search`: the request-parameter loops, the `ORDER BY`, and the filter, keyword and grouping logic of both search entry points.
- `Edit`: the controller actions.

Quirks of the code that the model keeps, each with the lemma that exhibits it:

- Search visibility uses `LEFT JOIN user_roles` with `user_id IS NULL`. So `read` granted to a role nobody holds shows the post to every user (`Search.UnheldRoleShowsEveryone`). The creator test only relaxes the permission condition, so a creator can fail to find their own post (`Search.CreatorCanBeHidden`).
- The `or` test of a keyword search is a substring test, so `history` makes an OR search (`Search.HistoryIsAnOrSearch`).
- The `HAVING count(*)` of an AND search counts joined rows, not distinct words. When a post's row joins several times, for instance through several of its permission rows for a user who is not an administrator, one matching word can be enough to keep it (`Search.RepeatedJoinKeepsPartialMatch`).
- A slug is static when it is truthy in PHP. So `0` is not static (`Edit.ZeroSlugIsNotStatic`), and `///` is saved as an empty static slug (`Edit.TripleSlashIsStaticAndEmpty`).
- A new tag whose name already exists is not attached to the post (`Edit.ExistingTagsNotAttached`).
- The `<teaser>` region is found case-insensitively, except at position 0, where only lower case counts (`Teaser.UpperCaseOpeningIgnored`).
- In the older search, category values come from the parameter's name, never its value (`SearchParams.LegacyTagInsideName`).

## Model

| member | source | states |
|---|---|---|
| Permissions.ResolvedMembership | Models/Post.php:837-845 | A constant is in the resolved permission list of a post exactly when some `post_permissions` row of the post, joined to `permissions` and to a `user_roles` row of the user, carries it. The list is deduplicated. |
| Permissions.HasPermissionRule | Models/Post.php:900-916 | `hasPermission` passes exactly for an admin, for the post's creator, or when some joined row grants the lower-cased constant to the user. |
| Permissions.NoRowsOnlyAdminOrCreator | Models/Post.php:900-916 | A post with no permission rows is open to its admin and its creator only, whatever the constant. |
| Permissions.UnsharedNeedsRead | Models/Post.php:925-953 | On a post that is not shared, access through `uuidPermission` is exactly `hasPermission('read')`, and the session is not changed. |
| Permissions.SuppliedUuidDecides | Models/Post.php:925-953 | On a shared post, a supplied UUID grants access exactly when its expansion (of a 32-character compact UUID) equals the post's UUID ignoring case. The session then remembers it; a wrong UUID is refused even when the session already remembers the post. |
| Permissions.SessionRemembers | Models/Post.php:925-953 | Without a supplied UUID, a shared post is granted exactly when the session remembers its UUID. |
| Permissions.UuidAccess | Models/Post.php:925-953 | Access is granted only when `read` is held or the post is shared. The session only grows, and only by the expanded supplied UUID. |
| PostModel.Post.Load | Models/Post.php:41-56 | A loaded post's fields are its row's, with the content still encrypted and nothing memoized or flagged. |
| PostModel.Post.Decrypt | Models/Post.php:146-150 | The content is decrypted and the `decrypted` flag set; nothing else changes. |
| PostModel.Post.Encrypt | Models/Post.php:155-159 | The content is encrypted and the `decrypted` flag cleared; nothing else changes. |
| PostModel.EncryptDecryptRoundTrip | Models/Post.php:146-159 | When decryption inverts encryption, decrypting an encrypted post gives back the same state. |
| PostModel.Post.Parse | Models/Post.php:209-252 | The object's new state and return value are those of `ParseStep` on its old state. |
| PostModel.ParseWithoutData | Models/Post.php:209-252 | Parsing without data renders the decrypted content; it decrypts only when the content was not decrypted yet, and sets `parsed` and `decrypted`. A repeated call renders the rendered content once more and decrypts nothing. |
| PostModel.ParseDataOnlyOnce | Models/Post.php:209-252 | Given data is rendered and returned on the object's first parse without touching the content. Any later call with data returns nothing and changes nothing. |
| PostModel.Post.Prepare | Models/Post.php:262-296 | The object's new state is that of `PrepareStep`: when not yet prepared, parse, then put the user's and then the site's global post in front, skipping this post itself. |
| PostModel.PrepareIdempotent | Models/Post.php:262-296 | After `prepare` the post is prepared, and a further `prepare` changes nothing. |
| PostModel.PrepareOrder | Models/Post.php:270-293 | With both globals present and distinct from the post, the content is the site global, then the user global, then the post's own parsed content. |
| PostModel.Post.GetPermissions | Models/Post.php:798-891 | An admin gets, and memoizes, the empty list. Anyone else gets the memoized list unchanged if one exists; otherwise they get the resolved list, which is memoized. |
| PostModel.Post.HasPermission | Models/Post.php:900-916 | The answer is the `hasPermission` rule over the memoized or else resolved list. Admins and the creator leave the object unchanged; anyone else memoizes the list if it was not yet known. |
| PostModel.Post.UuidPermission | Models/Post.php:925-953 | The decision and the new session are those of the UUID rule, applied to `hasPermission('read')`. Only the permission memo of the object may change. |
| PostModel.Post.RolePermissions | Models/Post.php:1074-1100 | `permissions()` is the role-name to markers map of the post's own joined permission rows; an unsaved post has none. |
| PostModel.Post.IncrementClicks | Models/Post.php:959-974 | The object's clicks rise by exactly one. The post's row in the table gets one more click. |
| PostModel.ClickOnlyThatPost | Models/Post.php:959-974 | Under unique post ids, the click raises that post's row by one, leaves every other row alone and keeps the ids unique. |
| PostModel.ClickUnsavedNoRow | Models/Post.php:959-974 | An unsaved post's click changes no row. |
| PostModel.Post.DeletePost | Models/Post.php:980-993 | An unsaved post deletes nothing. Otherwise, the tables become the cascade over the post's id. |
| PostModel.CascadeRemovesReferences | Models/Post.php:980-993 | Afterwards, no row of the badges, tags, indexes, locks, permissions, reads, revisions or routes tables names the post, and its post row is gone. |
| PostModel.CascadeKeepsOthers | Models/Post.php:980-993 | Every row of another post stays, and every table the cascade does not clean is unchanged. |
| PostModel.DeletedPostGrantsNothing | Models/Post.php:980-993 | After the cascade, no user resolves any permission on the deleted post. |
| Teaser.StripHiddenUntouched | Models/Post.php:313-319 | Text without any hidden-block opening tag passes the block removal unchanged. |
| Teaser.StripBlocksNotLonger | Models/Post.php:313-319 | Removing hidden blocks never makes the text longer. |
| Teaser.AuthBlockRemoved | Models/Post.php:313 | An `<auth>` block, its tags in any case, is cut out whole and the text on either side is joined, when its body holds no closing tag and the joined text opens no hidden block. |
| Teaser.HiddenBlockRemoved | Models/Post.php:313-319 | A block of any of the seven hidden tags (`auth`, `priv`, `html`, `php`, `phpw`, `info`, `infol`), its tags in any case, is cut out whole and the text on either side is joined. This holds when its body holds neither its own closing tag nor any hidden opening tag, and the joined text opens no hidden block. |
| Teaser.TeaserRegionExact | Models/Post.php:321-328 | Content that opens with `<teaser>` and a region without a closing tag inside it gets exactly that region as its teaser, verbatim. |
| Teaser.TeaserRegionFound | Models/Post.php:321-328 | A `<teaser>` region anywhere in the content, with neither tag of the pair before it and no closing tag inside it, is the teaser, verbatim. Past position 0 both tags may be written in any case; at position 0 the opening tag must be lower case. |
| Teaser.UpperCaseOpeningIgnored | Models/Post.php:321-323 | A text that opens with upper-case `<TEASER>` selects no region. |
| Teaser.TruncatedNoPair | Models/Post.php:365-368 | Cutting a text without CRLF to the teaser length, trimming and adding `...`, leaves no CRLF. |
| Teaser.TeaserHasNoCRLF | Models/Post.php:329-368 | A teaser built from the body, when no `<teaser>` region is selected, never holds a CRLF pair. |
| SearchParams.ParseParams | Models/Post.php:617-648 | The parameter loop of the current search yields the query of `NewQuery`. Each category is the comma-split value of its last occurrence; the flags are presence; sort defaults to `relevance`; the keyword is `key`. |
| SearchParams.LastValueSpec | Models/Post.php:617-648 | A name has a value exactly when some parameter has that name, and the value is that of its last occurrence. |
| SearchParams.FlagsArePresence | Models/Post.php:641-646 | `hidden`, `deleted` and `unread` are true exactly when the parameter is present, whatever its value. |
| SearchParams.SortParam | Models/Post.php:617-648 | Without a `sort` parameter the sort key is `relevance`. When the last parameter is `sort`, the key is its value. |
| SearchParams.ListParamRoundTrip | Models/Post.php:617-648 | A category's value list joins back with commas to the parameter's text, and no value holds a comma. |
| SearchParams.ParseLegacyParams | Models/Post.php:421-446 | The parameter loop of the older search yields `LegacyQuery`: each category is the list of captures after the category word in every parameter name that mentions it; the flags are presence; the sort key is that of the last `sort` parameter. |
| SearchParams.LegacyTagInsideName | Models/Post.php:421-446 | The parameter `Hashtags=7` adds the tag value `s`. The value is taken from the name, by a case-insensitive match. |
| Ordering.OrderForRule | Models/Post.php:747-769 | The seven explicit sort keys decide the order whether or not there is a keyword: `updatednew` and `updatedold` order by update time, newest and oldest first; `creatednew` and `createdold` by creation time likewise; `titleaz` and `titleza` by title, ascending and descending; `mostviews` by clicks, most first. Any other key orders by summed weight, highest first, with a keyword, and by most recently updated first without one. |
| Ordering.SortHitsCorrect | Models/Post.php:747-769 | The sorted rows follow the requested order and are a permutation of the rows given. |
| Search.VisibilityRule | Models/Post.php:659-673 | A post is visible to an admin, to the creator of a post without permission rows, or when some permission row of the post passes both joined conditions. The conditions are `read` or creator on the permission join, and the user or NULL on the role join. |
| Search.ReadGrantIsListed | Models/Post.php:659-673 | A user granted `read` on a post through one of their roles finds it in the search. |
| Search.UnheldRoleShowsEveryone | Models/Post.php:659-673 | `read` granted to a role nobody holds makes the post visible to every user. |
| Search.CreatorCanBeHidden | Models/Post.php:659-673 | A non-admin creator does not find their own post when every role it grants anything to is held, but not by them. |
| Search.AdmittedMeans | Models/Post.php:676-716 | A post the filters admit is visible to the caller, has the requested `deleted` and `hidden` flags, passes the title-only test and matches every category filter. |
| Search.TwoBadgesMatchNothing | Models/Post.php:676-683 | In the current search, two different badge values match no post, since each joined row carries one name. |
| Search.TypesAreAlternatives | Models/Post.php:686-693 | With type values given, a post passes exactly when a `types` row with its `type_id` carries one of them. |
| Search.LegacyBadgesAreAlternatives | Models/Post.php:496-505 | In the older search, a post passes the badge filter exactly when one of its badges has one of the given ids. |
| Search.AndSearchNeedsEveryTerm | Models/Post.php:720-738 | Without `or` in the keyword, a post whose postings join once is kept exactly when every hashed term is one of its indexed words. |
| Search.RepeatedJoinKeepsPartialMatch | Models/Post.php:658-738 | When a post's row joins at least as many times as there are terms, one posting of a term keeps it in an AND search, whatever the other terms. |
| Search.OrSearchNeedsOneTerm | Models/Post.php:720-738 | With `or` in the keyword, a post whose postings join at all is kept exactly when one of them is a hashed term. |
| Search.HistoryIsAnOrSearch | Models/Post.php:720-738 | `history` contains `or`, so a keyword holding it makes an OR search. |
| Search.GroupMembership | Models/Post.php:772-774 | The surviving groups are exactly the posts with postings whose group passes the `having` test. |
| Search.KeywordRowsDistinct | Models/Post.php:772-774 | A keyword search yields one row per post. |
| Search.ResultsAdmitted | Models/Post.php:596-790 | Every result row is a post that the filters admit. |
| Search.ListingComplete | Models/Post.php:596-790 | Without a keyword, every admitted post is listed. |
| Search.KeywordSearchFinds | Models/Post.php:720-774 | A keyword search lists each post whose group survives, with the group's summed weight. |
| Search.ResultsOrdered | Models/Post.php:747-769 | The result follows the order the sort key selects, and holds exactly the filtered rows. |
| Search.GetSearchPostsNew | Models/Post.php:596-790 | The rows are the results of the query read from the parameters. Unless `titleOnly`, every row carries the badges, tags, role markers and decrypted teaser that belong to it. |
| Search.GetSearchPosts | Models/Post.php:381-588 | The older entry point returns the results of its legacy query, with the keyword given apart from the parameters. |
| Listing.CollectRows | Models/Post.php:1032-1043 | The row-collecting loop keeps exactly the rows of the post, in order. |
| Listing.CollectMarkers | Models/Post.php:1085-1098 | The marker loop builds the role markers of the post's rows. |
| Listing.CollectIds | Models/Post.php:1002-1005 | The loop gathers the ids of the listed posts, in order. |
| Listing.MarkersMeaning | Models/Post.php:1046-1058 | A role has an entry exactly when some row of the post names it. Its entry holds only `R` and `W`: one `R` per `read` row and one `W` per `write` row; other constants add nothing. |
| Listing.MarkersOnlyOwnRows | Models/Post.php:1046-1058 | Only the post's own rows shape its markers. |
| Listing.BadgePartition | Models/Post.php:1007-1036 | Taking one post's rows from the batch badge query gives exactly that post's own badge query. |
| Listing.TagPartition | Models/Post.php:1013-1043 | Taking one post's rows from the batch tag query gives exactly that post's own tag query. |
| Listing.PermissionPartition | Models/Post.php:1019-1058 | Taking one post's rows from the batch permission query gives exactly that post's own permission query. |
| Listing.GetPostData | Models/Post.php:1000-1069 | Each listed post gets the data attached from the batch rows that belong to it. |
| Listing.ListingMatchesPostPermissions | Models/Post.php:1019-1099 | The markers attached to a listed post are those its `permissions()` builds. Its badges and tags are those of its own queries. |
| Edit.GuardRule | Http/Controllers/EditController.php:149-159 | Not found for a non-ajax request or a missing post. Otherwise an action proceeds exactly when the caller is an admin, the creator, or holds `write` through a role. |
| Edit.SaveRevision | Http/Controllers/EditController.php:162-195 | The editor's draft row is reused, or a row is added with the post's title; it gets the number and the encrypted content. |
| Edit.SavePost | Http/Controllers/EditController.php:162-195 | After the guards, the tables become those of `AfterUpdatePost`: an autosave writes only the draft; a commit also saves the post with the encrypted content and teaser, the editor as `updated_by` and the clock as `updated_at`. |
| Edit.UpdatePost | Http/Controllers/EditController.php:145-198 | A failing guard answers and changes nothing. Otherwise the save stores the draft, or commits with the content's generated teaser, and answers `saved`. |
| Edit.UpdatePostKeepsOneDraft | Http/Controllers/EditController.php:162-171 | Saving never gives an editor a second draft of the same post. |
| Edit.AutosaveStoresDraft | Http/Controllers/EditController.php:173-175 | An autosave leaves everything but the revisions alone, leaves the content on the editor's draft, and adds a row only when there was no draft. |
| Edit.RepeatedAutosaveAddsNoRow | Http/Controllers/EditController.php:162-175 | A second autosave adds no row. |
| Edit.CommitNumbersAbove | Http/Controllers/EditController.php:175-195 | A commit stores the content and teaser on the post, with the editor as `updated_by` and the clock as `updated_at`. It numbers the saved row above every revision of the post before it, and changes no other post or revision. |
| Edit.UpdatePostPerms | Http/Controllers/EditController.php:372-407 | A failing guard answers and changes nothing. Otherwise the post is saved with `shared` and the clock as `updated_at`, and its permission rows are deleted. The loop then visits the elements of a decoded list, or the property values of a decoded object, and inserts one row per entry. Every well-formed entry gives `preferences saved`. The first entry whose `perm_id` or `role_id` cannot be read fails, with the rows of the entries before it kept. Input that decodes to neither a list nor an object fails with no row inserted. |
| Edit.InsertPerms | Http/Controllers/EditController.php:398-404 | The insert loop appends one row per entry, in order, up to the first malformed entry, and reports success exactly when no entry is malformed. |
| Edit.PermissionsReplaced | Http/Controllers/EditController.php:388-404 | Afterwards the post's grants are exactly the submitted list, in order. Every other post's grants are as before; `shared` is the input and `updated_at` the clock. |
| Edit.DeletePost | Http/Controllers/EditController.php:291-330 | After the guards, any caller other than an admin or the creator is denied with no change. Otherwise a `permanent` request cascades and any other request saves the post marked deleted, with the clock as `updated_at`. |
| Edit.UndeletePost | Http/Controllers/EditController.php:336-366 | After the guards, any caller other than an admin or the creator is denied with no change. Otherwise the post is saved with the deleted mark cleared and the clock as `updated_at`. |
| Edit.UndeleteRestores | Http/Controllers/EditController.php:307-365 | Undeleting a soft-deleted post restores the tables exactly, except the post's `updated_at`, which is the undeletion's clock. |
| Edit.SoftDeleteKeepsAccess | Http/Controllers/EditController.php:307-365 | A soft delete or undelete changes no guard outcome. |
| Edit.PermanentDeleteIsFinal | Http/Controllers/EditController.php:307-329 | After a permanent delete, every action on the post answers not found. |
| Edit.ReadAdvForm | Http/Controllers/EditController.php:435-464 | The form is refused exactly when a workbench is given without exactly one `/`. The route is static exactly when the collapsed slug is truthy; the symlink is set exactly when requested on a static route; the slug loses one leading and one trailing `/`. |
| Edit.RouteError | Http/Controllers/EditController.php:478-509 | A static slug passes exactly when its first segment is not numeric, no other post's enabled route has it, and its first segment is not reserved. |
| Strings.NumericTrailingSpace | Http/Controllers/EditController.php:484 | `is_numeric` accepts white space after the number as well as before it, but nothing else: `12 ` is numeric, `12a` is not. |
| Edit.AdvRoute | Http/Controllers/EditController.php:474-531 | Only the routes change, and there are as many as before. The route step succeeds exactly when the post has a default route and a static slug passes the checks; a failure changes nothing. |
| Edit.SaveAdvRoute | Http/Controllers/EditController.php:474-531 | The tables and answer are those of the route step. |
| Edit.NotWorkbenchApp | Http/Controllers/EditController.php:430-432 | The type test reads the type's constant, then, for an `app`, the framework's. It fails exactly when one of these reads goes through a missing row; otherwise it passes exactly for a workbench app. |
| Edit.UpdatePostAdv | Http/Controllers/EditController.php:413-535 | A failing guard answers and changes nothing. Otherwise the tables and answer are those of `UpdateAdv`. |
| Edit.AdvFailure | Http/Controllers/EditController.php:428-479 | For an administrator the action fails exactly when the type test reads through a missing row, which changes nothing, or when an accepted form meets a post without a default route. |
| Edit.SavedStaticRouteIsValid | Http/Controllers/EditController.php:474-517 | A route saved as static passed every check, and the default route took the slug. |
| Edit.DynamicRouteReset | Http/Controllers/EditController.php:474-517 | An accepted form without a static slug resets the default route to the post's own slug, marked not static, and answers `preferences saved`; no other route changes. A post without a default route fails. |
| Edit.AdvFlagsSaved | Http/Controllers/EditController.php:445-469 | Once the form is accepted, the symlink is the submitted flag of a static route, and the workbench and the clock as `updated_at` are saved. A rejected static route leaves the routes as they were. |
| Edit.AdvNeedsAdmin | Http/Controllers/EditController.php:428-429 | A caller who is not an administrator changes nothing and is told the preferences were saved. |
| Edit.TripleSlashIsStaticAndEmpty | Http/Controllers/EditController.php:435-464 | `///` becomes an empty static slug. |
| Edit.ZeroSlugIsNotStatic | Http/Controllers/EditController.php:440-448 | The slug `0` is not static, so no symlink is set. |
| Edit.FrameworkFor | Http/Controllers/EditController.php:222-226 | A framework is kept only for the configured app type, and for that type it is the submitted one. |
| Edit.OrgPost | Http/Controllers/EditController.php:220-242 | Only the lookups, title, slug, hidden flag and `updated_at` change. Hidden is the input being `'true'`, a framework implies the app type, and `updated_at` is the clock. |
| Edit.RetitleMovesDynamicRoute | Http/Controllers/EditController.php:228-238 | A retitle, a submitted title that differs from the stored one as a string, moves a dynamic default route to the new slug and leaves a static one, changing no other route. It fails when there is no default route; keeping the title keeps every route. |
| Edit.NormalizedTagShape | Http/Controllers/EditController.php:256-261 | Every stored new tag has two to fifty tag characters, none of them upper case. |
| Edit.NormalizedTagIdempotent | Http/Controllers/EditController.php:256-261 | Normalizing a stored tag name gives it back. |
| Edit.ShortTagDropped | Http/Controllers/EditController.php:256-260 | `C#` keeps one character and is not stored as a tag. |
| Edit.AddTag | Http/Controllers/EditController.php:262-273 | Only the tags and post-tags change, and existing tags keep their place. An existing name changes nothing; a new name adds one tag of that name, and the only `post_tags` rows added attach the created tag to the post. |
| Edit.SaveTag | Http/Controllers/EditController.php:262-273 | One loop step has the effect of `AddTag`. |
| Edit.AddNewTags | Http/Controllers/EditController.php:253-276 | The new-tag loop has the effect of `OrgTags`. |
| Edit.AddTagsLinks | Http/Controllers/EditController.php:256-273 | Every tag the loop creates is attached to the post by one new `post_tags` row, in creation order, and no other row is added. |
| Edit.OrgTagsSpec | Http/Controllers/EditController.php:253-276 | Only lower-case tag names are created, and tag names stay unique. Each created tag is attached to the post by one new `post_tags` row and no other row is added. Every submitted name that normalizes has a tag afterwards, and a falsy input changes nothing. |
| Edit.ExistingTagsNotAttached | Http/Controllers/EditController.php:262-273 | When every submitted name already exists, nothing changes: an existing tag is not attached to the post. |
| Edit.UpdatePostOrg | Http/Controllers/EditController.php:204-285 | A failing guard answers and changes nothing. Otherwise the tables and answer are those of `UpdateOrg`. |
| Edit.OrgSavesPost | Http/Controllers/EditController.php:220-284 | The action fails, changing nothing, exactly when the title changed and there is no default route. Otherwise it saves the post's form values, with the clock as `updated_at`, and the retitle's routes, and only adds tags. |
| Edit.CreatePost | Http/Controllers/EditController.php:574-633 | The tables and answer are those of `CreatePostResult`. |
| Edit.CreateRefused | Http/Controllers/EditController.php:577-588 | Creation is denied exactly without the `create` permission, and fails exactly when no mode is `default`. Either way nothing changes. |
| Edit.CreatedPostRow | Http/Controllers/EditController.php:583-612 | The new post's id is fresh, and the post is found under it. It holds the generated uuid and the submitted title, slug, format and type; its framework is the submitted one for the app type and none otherwise. Its content and teaser decrypt to nothing. The symlink, shared, hidden, deleted, contains-script and contains-HTML flags are off, it has no workbench and no clicks, it has the default mode and the never-indexed clock, the caller is creator and editor, and both timestamps are the clock. |
| Edit.CreatedPostRoute | Http/Controllers/EditController.php:615-618 | The new post's default route is the new, non-static route with the submitted slug. |
| Edit.CreatedPostIsEditable | Http/Controllers/EditController.php:574-633 | The creator may at once edit the post just created. |

## Left out

- PHP version: the model follows PHP 8. `substr` of an empty window is `""`, and `is_numeric` allows trailing white space.
- Strings are PHP byte strings. The model's `char` stands for one byte, so `strlen`, `substr`, `stripos`, `strtolower` and the teaser length count bytes, and case folding is ASCII only. Multi-byte UTF-8 text is measured and cut byte by byte, as in the code. `str_limit` counts characters in the code; the model counts bytes, which agree on the ASCII-only tag names it is applied to.
- Reading a property through a missing row or a failed decode raises an error under Laravel's error handler. Examples are `->first()->id`, `$post->type->constant`, `$route->static`, a `foreach` over what `json_decode` returns for input that is neither a list nor an object, and a read of `perm_id` or `role_id` on an entry that lacks it or is not an object. The model answers `Failure` at that point. No action runs in a transaction, so every write made before the failure stays.
- Eloquent sets `updated_at` only when a save finds the model changed. Every post save of the controller assigns a PHP boolean, which never compares equal to the column value the database returns, or a fresh ciphertext. So the model sets `updated_at` to the clock on every such save. `Revision` has no automatic timestamps, and the controller sets its `created_at` itself.
- SQL collation: string comparisons in queries, including tag names, are exact; MySQL's case-insensitive collation is not modelled. Integer columns compared with strings use a simple numeric reading of the string.
- PHP loose comparison is modelled where it is truthiness (of slugs, inputs and query results) or a comparison with a non-numeric literal such as `== 'true'` or `!= 'app'`, which PHP 8 decides as string equality.
- `Edit.OrgRoutes`: the title test of `updatePostOrg` (Http/Controllers/EditController.php:228) is a loose `!=`, and the model compares the two titles exactly. Under PHP 8 two numeric strings are compared as numbers: for a stored title `1000` and a submitted `1e3` the code sees no change and leaves the title and the route alone, while the model saves the new title and moves a dynamic default route, or fails when the post has no default route. PHP's float conversion of numeric strings is not modelled.
- Pagination and the page path are not modelled: the search returns every row. Rows that tie in the sort order keep the order the filters produced them in; SQL leaves that order unspecified.
- The order of a keyword search's groups before sorting is left to the database in the code; the model lists groups in the order of their first posting.
- The parser dispatch of `parse` is a parameter (`render`). The user's and site's global posts that `prepare` puts in front are parameters too, already parsed.
- Cache and `forgetCache` are not modelled: they change no table.
- `Post::route`, `allTitles` and the relations (`badges()`, `type()`, ...) are not modelled. Lookups go through the tables directly.
- Request inputs, the session, `Auth`, `Request::ajax()`, the clock and `Str::getGuid` are explicit parameters. The global `create` permission is a parameter as well (`canCreate`).
- No concurrency: actions run one after another.
- `Crypt`, `md5`, `Indexer::stemText`, `strip_tags` and `Str::uuidToGuid` are parameters. Where a property needs the fact that decryption inverts encryption, it is the stated assumption `CipherInverts`.
- `Edit.UpdatePostOrg`: the hashtag update is a parameter (`hashtagSaved`), and `PostBadge::set` and `PostTag::set` are not modelled (their bodies are not part of this model).
- `Edit.UpdatePostAdv`: symlink management (`Symlink::manage`) is not modelled. A successful static route answers `preferences saved` whatever the symlink manager would report.
- `Edit.DeletePost`: the `File::move` that renames the post's file folder after a permanent delete is not modelled; it changes no table.
- `Edit.CreatePost`: Eloquent's automatic timestamps are the given `now`. The new route's columns other than slug and post id take the table defaults the model assumes: enabled, not static, default. The code reads the `default` mode's id without checking that one exists; the model answers `Failure` there and changes nothing. The post row's `clicks` (0) and `workbench` (none) are table defaults the code never assigns; the model writes them. The new post's and route's ids are `NextId`, one above the largest id in the table. MySQL's `AUTO_INCREMENT` never reuses an id, so after the top post is permanently deleted the code gives a higher id, and redirects to it, than the model does. `PostBadge::set`, `PostTag::set` and the `mkdir` of the post's file folder are not modelled.
- `Edit.UpdatePost`: the post and draft are written to the rows `FindPost` and `FindDraft` locate; the teaser is generated from the submitted content by `CreateTeaser`.
- `editPost` and `newPost` (views, and the word diff of `editPost`) are not modelled: they render pages and change nothing.
- `Search.GetSearchPostsNew`: the `unread` flag is read but filters nothing, as in the code. Title-only search compares titles with the keyword ignoring ASCII case. It takes the keyword literally: the `%`, `_` and `\` a keyword may hold are wildcards and escapes of `LIKE` in the code, and the model does not give them that meaning.
- `PostModel.Post.Parse`: the parser is chosen outside the model, and format selection through the `$format` argument is not modelled.
- `Http/Controllers/Admin/UserController.php`, `Models/Revision.php` and `Models/PostRead.php` are not part of this model: they hold no logic of the core.
