/** The post service: list, fetch, create, update and delete posts.
    The author is the caller's own user and never changes. A category id is
    optional and must exist when given; update clears the category when none is
    given. Tag ids follow a three-way rule (absent, empty, non-empty) that
    create and update read differently. Update and delete are allowed to the
    author and to admins, and checked only once the post is known to exist. */
module Posts {
  import opened Model
  import opened Store
  import opened PostRequests
  import Tags

  datatype PostView = PostView(
    id: Id,
    title: Option<string>,
    content: Option<string>,
    authorId: Id,
    authorUsername: string,
    categoryId: Option<Id>,
    categoryName: Option<string>,
    tags: set<Tags.TagView>)

  /** The view the service returns for a stored post, with the author, the
      category and the tags looked up. */
  function ToView(db: Db, id: Id, p: Post): PostView
    requires PostResolves(db, p)
  {
    PostView(
      id, p.title, p.content,
      p.author, db.users[p.author].username,
      p.category,
      if p.category.Some? then Some(db.categories[p.category.value].name) else None,
      Tags.ViewsOf(db.tags, p.tags))
  }

  /** What a view of post `id` must say, independently of how it is built: the
      stored fields, the author's id and username, a category id and name that
      are both absent exactly when the post has no category, and one tag view
      per tag of the post carrying that tag's name. */
  ghost predicate Describes(db: Db, id: Id, v: PostView) {
    id in db.posts && DescribesPost(db, id, db.posts[id], v)
  }

  ghost predicate DescribesPost(db: Db, id: Id, p: Post, v: PostView) {
    && v.id == id
    && v.title == p.title
    && v.content == p.content
    && v.authorId == p.author
    && p.author in db.users
    && v.authorUsername == db.users[p.author].username
    && v.categoryId == p.category
    && (v.categoryName.None? <==> p.category.None?)
    && (p.category.Some? ==>
          p.category.value in db.categories && v.categoryName == Some(db.categories[p.category.value].name))
    && (set t | t in v.tags :: t.id) == p.tags
    && (forall t | t in v.tags :: t.id in db.tags && t.name == db.tags[t.id].name)
  }

  function KeyOf(v: PostView): Id {
    v.id
  }

  function AllViews(db: Db): (r: set<PostView>)
    requires ReferencesResolve(db)
  {
    set id | id in db.posts :: ToView(db, id, db.posts[id])
  }

  // ---- what a view says ----

  /** The view built for a stored post describes it. */
  lemma ToViewDescribes(db: Db, id: Id, p: Post)
    requires PostResolves(db, p)
    ensures DescribesPost(db, id, p, ToView(db, id, p))
  {
  }

  /** At most one view describes a post, so `Describes` pins the view down. */
  lemma DescribesUnique(db: Db, id: Id, p: Post, v: PostView, w: PostView)
    requires DescribesPost(db, id, p, v) && DescribesPost(db, id, p, w)
    ensures v == w
  {
    forall t | t in v.tags
      ensures t in w.tags
    {
      TagIn(db, p.tags, t, v.tags, w.tags);
    }
    forall t | t in w.tags
      ensures t in v.tags
    {
      TagIn(db, p.tags, t, w.tags, v.tags);
    }
  }

  lemma TagIn(db: Db, ids: set<Id>, t: Tags.TagView, from: set<Tags.TagView>, to: set<Tags.TagView>)
    requires t in from
    requires (set u | u in from :: u.id) == ids && (set u | u in to :: u.id) == ids
    requires forall u | u in from :: u.id in db.tags && u.name == db.tags[u.id].name
    requires forall u | u in to :: u.id in db.tags && u.name == db.tags[u.id].name
    ensures t in to
  {
    assert t.id in (set u | u in from :: u.id);
    assert t.id in ids;
    assert t.id in (set u | u in to :: u.id);
    var u :| u in to && u.id == t.id;
    assert u == t;
  }

  /** The listing has one view per stored post, each describing its post. */
  lemma AllViewsDescribe(db: Db)
    requires ReferencesResolve(db)
    ensures forall v | v in AllViews(db) :: Describes(db, v.id, v)
    ensures forall id | id in db.posts :: exists v :: v in AllViews(db) && v.id == id
    ensures |AllViews(db)| == |db.posts|
  {
    var r := AllViews(db);
    forall id | id in db.posts
      ensures exists v :: v in r && KeyOf(v) == id
    {
      assert ToView(db, id, db.posts[id]) in r;
    }
    KeyedSetSize(r, KeyOf, db.posts.Keys);
  }

  // ---- the transactions, as functions of the store ----

  /** The tags a new post starts with: none unless tag ids are given. */
  function InitialTags(tagIds: Option<set<Id>>): set<Id> {
    if tagIds.Some? then tagIds.value else {}
  }

  /** The tags a post has after an update: absent ids keep the old ones. */
  function UpdatedTags(current: set<Id>, tagIds: Option<set<Id>>): set<Id> {
    if tagIds.Some? then tagIds.value else current
  }

  /** Given category and tag ids resolve: a given category exists, and every
      given tag id names a tag. */
  predicate CategoryResolves(db: Db, categoryId: Option<Id>) {
    categoryId.Some? ==> categoryId.value in db.categories
  }

  predicate TagsResolve(db: Db, tagIds: Option<set<Id>>) {
    tagIds.Some? ==> tagIds.value <= db.tags.Keys
  }

  ghost function Create(db: Db, req: PostRequest, caller: Principal): Result<Committed<PostView>> {
    match UserByName(db.users, caller.username)
    case None => Err(UserNotFound)
    case Some(author) =>
      if !CategoryResolves(db, req.categoryId) then Err(CategoryNotFound)
      else if !TagsResolve(db, req.tagIds) then Err(TagNotFound)
      else
        var post := Post(req.title, req.content, author, req.categoryId, InitialTags(req.tagIds));
        var id := db.nextId;
        var db' := db.(posts := db.posts[id := post], nextId := id + 1);
        Ok(Committed(ToView(db', id, post), db'))
  }

  ghost function Update(db: Db, id: Id, req: PostRequest, caller: Principal): Result<Committed<PostView>>
    requires ReferencesResolve(db)
  {
    if id !in db.posts then Err(PostNotFound)
    else match UserByName(db.users, caller.username)
      case None => Err(UserNotFound)
      case Some(user) =>
        var current := db.posts[id];
        if !MayModify(user, caller, current) then Err(NoPermissionToUpdate)
        else if !CategoryResolves(db, req.categoryId) then Err(CategoryNotFound)
        else if !TagsResolve(db, req.tagIds) then Err(TagNotFound)
        else
          var post := current.(
            title := req.title,
            content := req.content,
            category := req.categoryId,
            tags := UpdatedTags(current.tags, req.tagIds));
          var db' := db.(posts := db.posts[id := post]);
          Ok(Committed(ToView(db', id, post), db'))
  }

  ghost function Delete(db: Db, id: Id, caller: Principal): Result<Committed<()>> {
    if id !in db.posts then Err(PostNotFound)
    else match UserByName(db.users, caller.username)
      case None => Err(UserNotFound)
      case Some(user) =>
        if !MayModify(user, caller, db.posts[id]) then Err(NoPermissionToDelete)
        else Ok(Committed((), db.(posts := db.posts - {id})))
  }

  // ---- properties of create ----

  /** Create fails first of all when the caller's username names no user;
      otherwise the new post is stored under a fresh id with that user as its
      author and the request's title and content, and nothing else changes. */
  lemma CreateAuthor(db: Db, req: PostRequest, caller: Principal)
    requires Consistent(db)
    ensures Create(db, req, caller) == Err(UserNotFound) <==>
      forall u | u in db.users :: db.users[u].username != caller.username
    ensures Create(db, req, caller).Ok? ==>
      var Committed(v, db') := Create(db, req, caller).value;
      && v.id !in db.posts
      && db'.posts.Keys == db.posts.Keys + {v.id}
      && var p := db'.posts[v.id];
      && p.author in db.users && db.users[p.author].username == caller.username
      && p.title == req.title && p.content == req.content
      && Describes(db', v.id, v)
      && (forall q | q in db.posts :: db'.posts[q] == db.posts[q])
      && db'.users == db.users && db'.categories == db.categories && db'.tags == db.tags
  {
    var r := Create(db, req, caller);
    if r.Ok? {
      var Committed(v, db') := r.value;
      ToViewDescribes(db', v.id, db'.posts[v.id]);
    }
  }

  /** No category id: the post gets no category. A category id: it must name a
      category, or create fails and stores nothing; the post gets exactly it. */
  lemma CreateCategoryRule(db: Db, req: PostRequest, caller: Principal)
    requires Consistent(db)
    requires UserByName(db.users, caller.username).Some?
    ensures req.categoryId.Some? && req.categoryId.value !in db.categories ==>
      Create(db, req, caller) == Err(CategoryNotFound)
    ensures Create(db, req, caller).Ok? ==>
      var Committed(v, db') := Create(db, req, caller).value;
      && db'.posts[v.id].category == req.categoryId
      && (req.categoryId.None? ==> v.categoryId.None? && v.categoryName.None?)
  {
  }

  /** Absent or empty tag ids both give a post without tags; non-empty ids give
      exactly those tags, and a single id that names no tag fails the call. */
  lemma CreateTagsRule(db: Db, req: PostRequest, caller: Principal)
    requires Consistent(db)
    requires UserByName(db.users, caller.username).Some?
    requires CategoryResolves(db, req.categoryId)
    ensures req.tagIds.None? || req.tagIds == Some({}) ==>
      && Create(db, req, caller).Ok?
      && Create(db, req, caller).value.value.tags == {}
    ensures req.tagIds.Some? && req.tagIds.value != {} ==>
      (Create(db, req, caller).Ok? <==> req.tagIds.value <= db.tags.Keys)
    ensures req.tagIds.Some? && (exists t :: t in req.tagIds.value && t !in db.tags) ==>
      Create(db, req, caller) == Err(TagNotFound)
    ensures Create(db, req, caller).Ok? ==>
      var Committed(v, db') := Create(db, req, caller).value;
      && db'.posts[v.id].tags == InitialTags(req.tagIds)
      && (set t | t in v.tags :: t.id) == InitialTags(req.tagIds)
  {
  }

  // ---- properties of update ----

  /** Update checks, in this order, that the post exists, that the caller's
      username names a user, and that this user is the author or the caller
      holds the admin authority; a failed check fails the call. */
  lemma UpdateAuthorisation(db: Db, id: Id, req: PostRequest, caller: Principal)
    requires Consistent(db)
    ensures id !in db.posts ==> Update(db, id, req, caller) == Err(PostNotFound)
    ensures id in db.posts && UserByName(db.users, caller.username).None? ==>
      Update(db, id, req, caller) == Err(UserNotFound)
    ensures id in db.posts && UserByName(db.users, caller.username).Some? ==>
      var user := UserByName(db.users, caller.username).value;
      (Update(db, id, req, caller) == Err(NoPermissionToUpdate) <==>
        !(db.posts[id].author == user || RoleAdmin in caller.authorities))
    ensures Update(db, id, req, caller).Ok? ==>
      exists u :: u in db.users && db.users[u].username == caller.username &&
        (db.posts[id].author == u || RoleAdmin in caller.authorities)
  {
  }

  /** A permitted update overwrites title and content, keeps the author, and
      sets the category to the given one (which must exist) or clears it; only
      that post changes. */
  lemma UpdateFields(db: Db, id: Id, req: PostRequest, caller: Principal)
    requires Consistent(db)
    ensures Update(db, id, req, caller).Ok? ==>
      var Committed(v, db') := Update(db, id, req, caller).value;
      && db'.posts.Keys == db.posts.Keys
      && db'.posts[id].title == req.title
      && db'.posts[id].content == req.content
      && db'.posts[id].author == db.posts[id].author
      && db'.posts[id].category == req.categoryId
      && (req.categoryId.None? ==> v.categoryId.None? && v.categoryName.None?)
      && Describes(db', id, v)
      && (forall q | q in db.posts && q != id :: db'.posts[q] == db.posts[q])
      && db'.users == db.users && db'.categories == db.categories && db'.tags == db.tags
      && db'.nextId == db.nextId
    ensures
      && id in db.posts
      && UserByName(db.users, caller.username).Some?
      && MayModify(UserByName(db.users, caller.username).value, caller, db.posts[id])
      && req.categoryId.Some? && req.categoryId.value !in db.categories
      ==> Update(db, id, req, caller) == Err(CategoryNotFound)
  {
    var r := Update(db, id, req, caller);
    if r.Ok? {
      var Committed(v, db') := r.value;
      ToViewDescribes(db', id, db'.posts[id]);
    }
  }

  /** Absent tag ids keep the post's tags, an empty set clears them, and a
      non-empty set replaces them wholesale, failing if any id names no tag. */
  lemma UpdateTagsRule(db: Db, id: Id, req: PostRequest, caller: Principal)
    requires Consistent(db)
    requires id in db.posts
    requires UserByName(db.users, caller.username).Some?
    requires MayModify(UserByName(db.users, caller.username).value, caller, db.posts[id])
    requires CategoryResolves(db, req.categoryId)
    ensures req.tagIds.None? ==>
      Update(db, id, req, caller).Ok? && Update(db, id, req, caller).value.db.posts[id].tags == db.posts[id].tags
    ensures req.tagIds == Some({}) ==>
      Update(db, id, req, caller).Ok? && Update(db, id, req, caller).value.db.posts[id].tags == {}
    ensures req.tagIds.Some? && req.tagIds.value != {} ==>
      if req.tagIds.value <= db.tags.Keys then
        Update(db, id, req, caller).Ok? && Update(db, id, req, caller).value.db.posts[id].tags == req.tagIds.value
      else
        Update(db, id, req, caller) == Err(TagNotFound)
  {
  }

  // ---- properties of delete ----

  /** Delete has the same checks, in the same order, as update. A permitted
      delete removes exactly that post and leaves every other post and every
      other table as it was. */
  lemma DeleteOutcome(db: Db, id: Id, caller: Principal)
    requires Consistent(db)
    ensures id !in db.posts ==> Delete(db, id, caller) == Err(PostNotFound)
    ensures id in db.posts && UserByName(db.users, caller.username).None? ==>
      Delete(db, id, caller) == Err(UserNotFound)
    ensures id in db.posts && UserByName(db.users, caller.username).Some? ==>
      var user := UserByName(db.users, caller.username).value;
      (Delete(db, id, caller).Ok? <==> db.posts[id].author == user || RoleAdmin in caller.authorities)
    ensures Delete(db, id, caller).Err? ==>
      Delete(db, id, caller).error in {PostNotFound, UserNotFound, NoPermissionToDelete}
    ensures Delete(db, id, caller).Ok? ==>
      var db' := Delete(db, id, caller).value.db;
      && db'.posts.Keys == db.posts.Keys - {id}
      && (forall q | q in db'.posts :: db'.posts[q] == db.posts[q])
      && db'.users == db.users && db'.categories == db.categories && db'.tags == db.tags
  {
  }

  /** The author may always update and delete their post, and an admin may
      update and delete any post, as far as permission goes. */
  lemma AuthorAndAdminPermitted(db: Db, id: Id, req: PostRequest, caller: Principal)
    requires Consistent(db)
    requires id in db.posts
    requires db.posts[id].author in db.users
    requires db.users[db.posts[id].author].username == caller.username || RoleAdmin in caller.authorities
    requires exists u :: u in db.users && db.users[u].username == caller.username
    ensures Update(db, id, req, caller) != Err(NoPermissionToUpdate)
    ensures Delete(db, id, caller).Ok?
  {
    var author := db.posts[id].author;
    if db.users[author].username == caller.username {
      UserByNameUnique(db.users, caller.username, author);
    }
  }

  // ---- the store invariant ----

  lemma CreatePreserves(db: Db, req: PostRequest, caller: Principal)
    requires Consistent(db)
    ensures Create(db, req, caller).Ok? ==> Consistent(Create(db, req, caller).value.db)
  {
  }

  lemma UpdatePreserves(db: Db, id: Id, req: PostRequest, caller: Principal)
    requires Consistent(db)
    ensures Update(db, id, req, caller).Ok? ==> Consistent(Update(db, id, req, caller).value.db)
  {
  }

  lemma DeletePreserves(db: Db, id: Id, caller: Principal)
    requires Consistent(db)
    ensures Delete(db, id, caller).Ok? ==> Consistent(Delete(db, id, caller).value.db)
  {
  }

  /** Every stored post passes the title and content constraints. */
  ghost predicate PostsValid(db: Db) {
    forall id | id in db.posts :: ValidTitle(db.posts[id].title) && ValidContent(db.posts[id].content)
  }

  /** The services store the title and content exactly as requested, so a
      store whose posts pass validation keeps passing it under validated
      requests. */
  lemma ValidRequestsKeepPostsValid(db: Db, id: Id, req: PostRequest, caller: Principal)
    requires Consistent(db) && PostsValid(db) && Valid(req)
    ensures Create(db, req, caller).Ok? ==> PostsValid(Create(db, req, caller).value.db)
    ensures Update(db, id, req, caller).Ok? ==> PostsValid(Update(db, id, req, caller).value.db)
    ensures Delete(db, id, caller).Ok? ==> PostsValid(Delete(db, id, caller).value.db)
  {
  }

  /** The service object, over the shared store. */
  class PostService {
    const store: Store

    constructor (store: Store)
      ensures this.store == store
    {
      this.store := store;
    }

    function GetAllPosts(): (r: set<PostView>)
      reads store
      requires store.Valid()
      ensures forall v | v in r :: Describes(store.Snapshot(), v.id, v)
      ensures forall id | id in store.posts :: exists v :: v in r && v.id == id
      ensures |r| == |store.posts|
    {
      AllViewsDescribe(store.Snapshot());
      AllViews(store.Snapshot())
    }

    function GetPostById(id: Id): (r: Result<PostView>)
      reads store
      requires store.Valid()
      ensures r.Err? <==> id !in store.posts
      ensures r.Err? ==> r.error == PostNotFound
      ensures r.Ok? ==> Describes(store.Snapshot(), id, r.value)
    {
      if id in store.posts then
        ToViewDescribes(store.Snapshot(), id, store.posts[id]);
        Ok(ToView(store.Snapshot(), id, store.posts[id]))
      else
        Err(PostNotFound)
    }

    method CreatePost(req: PostRequest, caller: Principal) returns (r: Result<PostView>)
      requires store.Valid()
      modifies store
      ensures store.Valid()
      ensures Applied(r, old(store.Snapshot()), store.Snapshot(), Create(old(store.Snapshot()), req, caller))
    {
      CreatePreserves(store.Snapshot(), req, caller);
      var author := store.FindUserByUsername(caller.username);
      if author.None? {
        return Err(UserNotFound);
      }
      var post := Post(req.title, req.content, author.value, None, {});
      if req.categoryId.Some? {
        if req.categoryId.value !in store.categories {
          return Err(CategoryNotFound);
        }
        post := post.(category := req.categoryId);
      }
      if req.tagIds.Some? {
        if req.tagIds.value != {} {
          var resolved := store.ResolveTags(req.tagIds.value);
          if resolved.Err? {
            return Err(resolved.error);
          }
          post := post.(tags := resolved.value);
        }
      }
      var id := store.nextId;
      store.posts := store.posts[id := post];
      store.nextId := id + 1;
      r := Ok(ToView(store.Snapshot(), id, post));
    }

    method UpdatePost(id: Id, req: PostRequest, caller: Principal) returns (r: Result<PostView>)
      requires store.Valid()
      modifies store
      ensures store.Valid()
      ensures Applied(r, old(store.Snapshot()), store.Snapshot(), Update(old(store.Snapshot()), id, req, caller))
    {
      UpdatePreserves(store.Snapshot(), id, req, caller);
      if id !in store.posts {
        return Err(PostNotFound);
      }
      var post := store.posts[id];
      var user := store.FindUserByUsername(caller.username);
      if user.None? {
        return Err(UserNotFound);
      }
      if post.author != user.value && !IsAdmin(caller) {
        return Err(NoPermissionToUpdate);
      }
      post := post.(title := req.title, content := req.content);
      if req.categoryId.Some? {
        if req.categoryId.value !in store.categories {
          return Err(CategoryNotFound);
        }
        post := post.(category := req.categoryId);
      } else {
        post := post.(category := None);
      }
      if req.tagIds.Some? {
        if req.tagIds.value == {} {
          post := post.(tags := {});
        } else {
          var resolved := store.ResolveTags(req.tagIds.value);
          if resolved.Err? {
            return Err(resolved.error);
          }
          post := post.(tags := resolved.value);
        }
      }
      store.posts := store.posts[id := post];
      r := Ok(ToView(store.Snapshot(), id, post));
    }

    method DeletePost(id: Id, caller: Principal) returns (r: Result<()>)
      requires store.Valid()
      modifies store
      ensures store.Valid()
      ensures Applied(r, old(store.Snapshot()), store.Snapshot(), Delete(old(store.Snapshot()), id, caller))
    {
      DeletePreserves(store.Snapshot(), id, caller);
      if id !in store.posts {
        return Err(PostNotFound);
      }
      var post := store.posts[id];
      var user := store.FindUserByUsername(caller.username);
      if user.None? {
        return Err(UserNotFound);
      }
      if post.author != user.value && !IsAdmin(caller) {
        return Err(NoPermissionToDelete);
      }
      store.posts := store.posts - {id};
      r := Ok(());
    }
  }
}
