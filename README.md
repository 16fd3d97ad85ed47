# Blog backend service layer, in Dafny

The blog backend keeps users, categories, tags and posts in a relational
store, and its three services do the create, list, fetch, update and delete
operations on them:

- **CategoryService**: category names are unique. A rename to the category's
  own current name is allowed. A category that still has posts cannot be
  deleted.
- **TagService**: the same rules for tag names. A tag with a known id can
  always be deleted. The model assumes that deleting it detaches it from every
  post that carried it.
- **PostService**: the author of a new post is the user the caller logged in
  as. A given category id and every given tag id must exist. Tag ids follow a
  three-way rule: absent, empty and non-empty mean different things on create
  and on update. Only the author or an admin may update or delete a post, and
  that is checked only after the post is known to exist.
- **PostRequest**: the payload of post create and update. Its title and
  content carry bean-validation constraints.

The model has these parts:

- `Model` holds the entities as values and the store as a value `Db`: one map
  per table and the counter that hands out fresh ids. It also states the store
  invariant `Consistent`:
  - usernames, category names and tag names are unique;
  - every post's author, category and tags exist;
  - every category, tag and post id lies below the counter, so the counter is
    always a fresh id for those tables.
- `Store.Store` is the mutable store the three services share. Its tables are
  fields.
- Each of `Categories`, `Tags` and `Posts` has two halves:
  - a service class whose methods update the store step by step, in the
    source's order of checks;
  - ghost functions of `Db` that define each transaction. A transaction either
    commits a new store or fails with an error and no store, which is what
    `@Transactional` rollback gives.

  Each of the six mutating methods (create, update and delete of each
  service) is proved against its function by the predicate `Model.Applied`. On success it returns the committed value and leaves the
  committed store. On failure it raises the same error and leaves the store as
  it was. The properties are lemmas about the functions. The read operations
  are functions of the store with their own postconditions.
- `PostRequests` states the validation rules.
- `Blog` combines all nine transactions into one state machine and proves that
  the invariant holds after any sequence of requests.

## Model

| member | source | states |
|---|---|---|
| Model.UserByName | backend/src/main/java/com/blog/service/PostService.java:52-53 | the username lookup finds a user with exactly that username, or reports that no user has it |
| Model.UserByNameUnique | backend/src/main/java/com/blog/service/PostService.java:89-90 | with unique usernames, the lookup returns the one user holding the name |
| Store.Store.constructor | backend/src/main/java/com/blog/service/PostService.java:24-34 | the services start from empty category, tag and post tables over the registered users, and the store is consistent |
| Store.Store.FindUserByUsername | backend/src/main/java/com/blog/service/PostService.java:52-53 | finds a user exactly when one has the username, and the one it finds is the lookup's answer |
| Store.Store.ResolveTags | backend/src/main/java/com/blog/service/PostService.java:70-73 | succeeds exactly when every requested id names a tag, and then yields exactly those tags; otherwise fails with tag-not-found |
| PostRequests.Utf16Length | backend/src/main/java/com/blog/dto/PostRequest.java:17 | the measured length lies between the number of characters and twice that; it equals the character count for text in the Basic Multilingual Plane, and twice the count when every character is outside it |
| PostRequests.ValidTitleBounds | backend/src/main/java/com/blog/dto/PostRequest.java:16-21 | a valid request has a title and content, the title has a visible character, and it has between 2 and 200 characters |
| PostRequests.BmpTitleSize | backend/src/main/java/com/blog/dto/PostRequest.java:17 | for text in the Basic Multilingual Plane the size rule is exactly "between 3 and 200 characters" |
| PostRequests.ReferencesUnconstrained | backend/src/main/java/com/blog/dto/PostRequest.java:23-25 | validity does not depend on the category id or the tag ids |
| Categories.AllViews | backend/src/main/java/com/blog/service/CategoryService.java:21-26 | one view per stored category, each carrying that category's id, name and description |
| Categories.CreateOutcome | backend/src/main/java/com/blog/service/CategoryService.java:35-46 | create fails with name-exists exactly when a category has the name; otherwise it stores exactly the request under a fresh id and changes no other category or table |
| Categories.UpdateConflict | backend/src/main/java/com/blog/service/CategoryService.java:49-58 | unknown id gives not-found; on a known id update fails exactly when another category has the name, so the category's own name always passes |
| Categories.UpdateFrame | backend/src/main/java/com/blog/service/CategoryService.java:60-65 | a successful update overwrites that category's name and description only and changes no other table or the counter |
| Categories.DeleteOutcome | backend/src/main/java/com/blog/service/CategoryService.java:67-78 | unknown id gives not-found; a known one is refused exactly when a post refers to it; otherwise exactly that category is removed |
| Categories.CreatePreserves | backend/src/main/java/com/blog/service/CategoryService.java:37-39 | a committed create keeps the store consistent, in particular category names unique |
| Categories.UpdatePreserves | backend/src/main/java/com/blog/service/CategoryService.java:55-58 | a committed update keeps category names unique and the store consistent |
| Categories.DeletePreserves | backend/src/main/java/com/blog/service/CategoryService.java:72-75 | a committed delete leaves no post referring to a missing category |
| Categories.CategoryService.GetAllCategories | backend/src/main/java/com/blog/service/CategoryService.java:21-26 | lists every stored category once with its stored fields |
| Categories.CategoryService.GetCategoryById | backend/src/main/java/com/blog/service/CategoryService.java:28-33 | fails with not-found exactly when the id is unknown, else returns that category's fields |
| Categories.CategoryService.CreateCategory | backend/src/main/java/com/blog/service/CategoryService.java:35-47 | does what Categories.Create says, commits or leaves the store unchanged, and keeps it consistent |
| Categories.CategoryService.UpdateCategory | backend/src/main/java/com/blog/service/CategoryService.java:49-65 | does what Categories.Update says, commits or leaves the store unchanged, and keeps it consistent |
| Categories.CategoryService.DeleteCategory | backend/src/main/java/com/blog/service/CategoryService.java:67-78 | does what Categories.Delete says, commits or leaves the store unchanged, and keeps it consistent |
| Tags.ViewsOf | backend/src/main/java/com/blog/service/TagService.java:22-27 | the views of a set of tag ids: one per id, each with that tag's name |
| Tags.CreateOutcome | backend/src/main/java/com/blog/service/TagService.java:38-49 | create fails with name-exists exactly when a tag has the name; otherwise it stores that name under a fresh id and changes nothing else |
| Tags.UpdateConflict | backend/src/main/java/com/blog/service/TagService.java:51-60 | unknown id gives not-found; on a known id update fails exactly when another tag has the name |
| Tags.UpdateFrame | backend/src/main/java/com/blog/service/TagService.java:62-66 | a successful update renames that tag only and changes no other table or the counter |
| Tags.DeleteOutcome | backend/src/main/java/com/blog/service/TagService.java:68-76 | delete fails only on an unknown id; otherwise it removes the tag, drops it from every post's tags, and keeps every other field of every post |
| Tags.CreatePreserves | backend/src/main/java/com/blog/service/TagService.java:40-42 | a committed create keeps tag names unique and the store consistent |
| Tags.UpdatePreserves | backend/src/main/java/com/blog/service/TagService.java:57-60 | a committed update keeps tag names unique and the store consistent |
| Tags.DeletePreserves | backend/src/main/java/com/blog/service/TagService.java:68-76 | a committed delete leaves no post carrying a missing tag |
| Tags.TagService.GetAllTags | backend/src/main/java/com/blog/service/TagService.java:22-27 | lists every stored tag once with its name |
| Tags.TagService.GetTagById | backend/src/main/java/com/blog/service/TagService.java:29-36 | fails with not-found exactly when the id is unknown, else returns that tag |
| Tags.TagService.CreateTag | backend/src/main/java/com/blog/service/TagService.java:38-49 | does what Tags.Create says, commits or leaves the store unchanged, and keeps it consistent |
| Tags.TagService.UpdateTag | backend/src/main/java/com/blog/service/TagService.java:51-66 | does what Tags.Update says, commits or leaves the store unchanged, and keeps it consistent |
| Tags.TagService.DeleteTag | backend/src/main/java/com/blog/service/TagService.java:68-76 | does what Tags.Delete says, commits or leaves the store unchanged, and keeps it consistent |
| Posts.ToViewDescribes | backend/src/main/java/com/blog/service/PostService.java:148-165 | the view built for a post carries its fields, its author's id and username, its category id and name (both absent when it has none) and one view per tag |
| Posts.DescribesUnique | backend/src/main/java/com/blog/service/PostService.java:148-165 | at most one view describes a post, so the description fixes the view |
| Posts.AllViewsDescribe | backend/src/main/java/com/blog/service/PostService.java:36-41 | the listing has exactly one view per stored post, each describing it |
| Posts.CreateAuthor | backend/src/main/java/com/blog/service/PostService.java:50-58 | create fails with user-not-found exactly when no user has the caller's username; otherwise the new post, under a fresh id, has that user as author and the requested title and content, and no other post or table changes |
| Posts.CreateCategoryRule | backend/src/main/java/com/blog/service/PostService.java:60-65 | an unknown category id fails the create; a successful create stores exactly the given category, or none |
| Posts.CreateTagsRule | backend/src/main/java/com/blog/service/PostService.java:67-78 | absent or empty tag ids give a post without tags; non-empty ids succeed exactly when all exist and give exactly those tags; one unknown id fails the create |
| Posts.UpdateAuthorisation | backend/src/main/java/com/blog/service/PostService.java:84-97 | update checks existence, then the caller's user, then refuses exactly when that user is not the author and the caller lacks ROLE_ADMIN |
| Posts.UpdateFields | backend/src/main/java/com/blog/service/PostService.java:99-110 | a successful update overwrites title and content, keeps the author, sets the category to the given one or clears it, changes no other post or table, and returns a view describing the new post; a permitted update with an unknown category id fails with category-not-found |
| Posts.UpdateTagsRule | backend/src/main/java/com/blog/service/PostService.java:111-124 | absent tag ids keep the tags, an empty set clears them, a non-empty set replaces them when all exist and fails with tag-not-found otherwise |
| Posts.DeleteOutcome | backend/src/main/java/com/blog/service/PostService.java:130-146 | delete has the same checks in the same order and succeeds exactly when the caller is the author or an admin; it removes that post only |
| Posts.AuthorAndAdminPermitted | backend/src/main/java/com/blog/service/PostService.java:92-97 | the author, and any caller with ROLE_ADMIN, passes the permission check of update and of delete |
| Posts.CreatePreserves | backend/src/main/java/com/blog/service/PostService.java:50-82 | a committed create keeps every reference resolving and the store consistent |
| Posts.UpdatePreserves | backend/src/main/java/com/blog/service/PostService.java:84-128 | a committed update keeps every reference resolving and the store consistent |
| Posts.DeletePreserves | backend/src/main/java/com/blog/service/PostService.java:130-146 | a committed delete keeps the store consistent |
| Posts.ValidRequestsKeepPostsValid | backend/src/main/java/com/blog/dto/PostRequest.java:16-21 | since titles and content are stored as given, validated requests keep every stored post valid |
| Posts.PostService.GetAllPosts | backend/src/main/java/com/blog/service/PostService.java:36-41 | lists one view per stored post, each describing it |
| Posts.PostService.GetPostById | backend/src/main/java/com/blog/service/PostService.java:43-48 | fails with not-found exactly when the id is unknown, else returns the view describing that post |
| Posts.PostService.CreatePost | backend/src/main/java/com/blog/service/PostService.java:50-82 | does what Posts.Create says, commits or leaves the store unchanged, and keeps it consistent |
| Posts.PostService.UpdatePost | backend/src/main/java/com/blog/service/PostService.java:84-128 | does what Posts.Update says, commits or leaves the store unchanged, and keeps it consistent |
| Posts.PostService.DeletePost | backend/src/main/java/com/blog/service/PostService.java:130-146 | does what Posts.Delete says, commits or leaves the store unchanged, and keeps it consistent |
| Blog.StepPreserves | backend/src/main/java/com/blog/service/PostService.java:50-146 | any one request, committed or rolled back, keeps the store consistent, never changes the users and never moves the id counter back |
| Blog.Run | backend/src/main/java/com/blog/service/PostService.java:50-146 | after any sequence of requests the store is consistent, the users are unchanged and the counter has not moved back |
| Blog.InitialStoreConsistent | backend/src/main/java/com/blog/service/PostService.java:24-34 | the empty store over uniquely named users is consistent |
| Blog.DeletePosts | backend/src/main/java/com/blog/service/PostService.java:130-146 | deleting posts one request at a time keeps the store consistent |
| Blog.DeleteCategoryOnceUnreferenced | backend/src/main/java/com/blog/service/CategoryService.java:67-78 | once every post of a category has been deleted, deleting the category succeeds |

## Left out

- The REST controllers, the JWT filter and the authentication service are not part of this model. The caller is a `Principal` parameter.
- Registration is not part of this model. The users are given to the store's constructor, and no service here changes them.
- The JPA repositories and the database are a map per table. One shared counter hands out ids, where the database keeps one identity sequence per table. Only freshness matters to the services.
- Creation and update timestamps are not modelled, because no rule depends on them.
- Concurrency is not modelled. Each transaction runs whole, so a race between a uniqueness check and a save of another request cannot happen here.
- Error message text and the ids quoted in it are not modelled. Errors are told apart by kind.
- The case and accent rules of the database collation are not modelled. `existsByName` compares names exactly here, as `String.equals` does in the update check.
- List results are sets. The order the repositories return rows in is not modelled.
- A null tag id inside the requested set is not modelled, because tag ids are plain integers here.
- Store.Store.ResolveTags: when several requested tags are missing, the model does not say which id the error names, because the stream visits a hash set in no fixed order.
- User roles stored on the user entity are not modelled. The admin check reads only the principal's authorities, as the services do.
- Bean validation runs in the web layer before a service is called, which is not part of this model. The services accept any title and content, and `ValidRequestsKeepPostsValid` states what validation buys.
- The frontend is not part of this model.
- Tags.DeleteOutcome: the service only calls `tagRepository.delete(tag)`. The entity mapping decides what then happens to posts that carry the tag, and it is not part of this model. The model assumes the delete detaches the tag from every post (`Tags.Detached`), rather than failing on the join table's foreign key.
