/** The three services together as one state machine over the store: each
    request is one transaction, and the store invariant holds after any
    sequence of requests, successful or not. */
module Blog {
  import opened Model
  import opened PostRequests
  import Categories
  import Tags
  import Posts

  /** A mutating request to one of the services. */
  datatype Call =
    | CreateCategory(categoryRequest: Categories.CategoryRequest)
    | UpdateCategory(id: Id, categoryRequest: Categories.CategoryRequest)
    | DeleteCategory(id: Id)
    | CreateTag(tagRequest: Tags.TagRequest)
    | UpdateTag(id: Id, tagRequest: Tags.TagRequest)
    | DeleteTag(id: Id)
    | CreatePost(postRequest: PostRequest, caller: Principal)
    | UpdatePost(id: Id, postRequest: PostRequest, caller: Principal)
    | DeletePost(id: Id, caller: Principal)

  /** The store after one transaction: the committed one, or the old one when
      the transaction fails and rolls back. */
  ghost function Step(db: Db, call: Call): Db
    requires Consistent(db)
  {
    match call
    case CreateCategory(req) => StoreAfter(db, Categories.Create(db, req))
    case UpdateCategory(id, req) => StoreAfter(db, Categories.Update(db, id, req))
    case DeleteCategory(id) => StoreAfter(db, Categories.Delete(db, id))
    case CreateTag(req) => StoreAfter(db, Tags.Create(db, req))
    case UpdateTag(id, req) => StoreAfter(db, Tags.Update(db, id, req))
    case DeleteTag(id) => StoreAfter(db, Tags.Delete(db, id))
    case CreatePost(req, caller) => StoreAfter(db, Posts.Create(db, req, caller))
    case UpdatePost(id, req, caller) => StoreAfter(db, Posts.Update(db, id, req, caller))
    case DeletePost(id, caller) => StoreAfter(db, Posts.Delete(db, id, caller))
  }

  function StoreAfter<T>(db: Db, r: Result<Committed<T>>): Db {
    if r.Ok? then r.value.db else db
  }

  /** One transaction keeps the store consistent, never changes the users,
      and never moves the id counter back. */
  lemma StepPreserves(db: Db, call: Call)
    requires Consistent(db)
    ensures Consistent(Step(db, call))
    ensures Step(db, call).users == db.users
    ensures db.nextId <= Step(db, call).nextId
  {
    match call
    case CreateCategory(req) => Categories.CreatePreserves(db, req);
    case UpdateCategory(id, req) => Categories.UpdatePreserves(db, id, req);
    case DeleteCategory(id) => Categories.DeletePreserves(db, id);
    case CreateTag(req) => Tags.CreatePreserves(db, req);
    case UpdateTag(id, req) => Tags.UpdatePreserves(db, id, req);
    case DeleteTag(id) => Tags.DeletePreserves(db, id);
    case CreatePost(req, caller) => Posts.CreatePreserves(db, req, caller);
    case UpdatePost(id, req, caller) => Posts.UpdatePreserves(db, id, req, caller);
    case DeletePost(id, caller) => Posts.DeletePreserves(db, id, caller);
  }

  /** The store after a sequence of requests. Every store it passes through is
      consistent: category and tag names stay unique, every post's author,
      category and tags exist, and ids are never handed out twice. */
  ghost function Run(db: Db, calls: seq<Call>): (r: Db)
    requires Consistent(db)
    ensures Consistent(r)
    ensures r.users == db.users
    ensures db.nextId <= r.nextId
    decreases |calls|
  {
    if calls == [] then db
    else
      StepPreserves(db, calls[0]);
      Run(Step(db, calls[0]), calls[1..])
  }

  /** The store the services start from, over the users registration made. */
  lemma InitialStoreConsistent(users: map<Id, User>)
    requires UniqueUsernames(users)
    ensures Consistent(Db(users, map[], map[], map[], 1))
  {
  }

  /** Deleting posts, one request at a time, with the given caller; `None` when
      one of the deletes fails. */
  ghost function DeletePosts(db: Db, ids: seq<Id>, caller: Principal): (r: Option<Db>)
    requires Consistent(db)
    ensures r.Some? ==> Consistent(r.value)
    decreases |ids|
  {
    if ids == [] then Some(db)
    else match Posts.Delete(db, ids[0], caller)
      case Err(_) => None
      case Ok(c) =>
        Posts.DeletePreserves(db, ids[0], caller);
        DeletePosts(c.db, ids[1..], caller)
  }

  /** A category with posts cannot be deleted, but once every post that refers
      to it has been deleted, deleting the category succeeds. */
  lemma {:induction false} DeleteCategoryOnceUnreferenced(db: Db, category: Id, ids: seq<Id>, caller: Principal)
    requires Consistent(db)
    requires category in db.categories
    requires forall p | p in Model.PostsOf(db, category) :: p in ids
    requires DeletePosts(db, ids, caller).Some?
    ensures Categories.Delete(DeletePosts(db, ids, caller).value, category).Ok?
    decreases |ids|
  {
    if ids == [] {
      assert forall p :: p !in Model.PostsOf(db, category);
    } else {
      var c := Posts.Delete(db, ids[0], caller).value;
      Posts.DeletePreserves(db, ids[0], caller);
      assert Model.PostsOf(c.db, category) == Model.PostsOf(db, category) - {ids[0]};
      forall p | p in Model.PostsOf(c.db, category)
        ensures p in ids[1..]
      {
        assert p in ids && p != ids[0];
      }
      DeleteCategoryOnceUnreferenced(c.db, category, ids[1..], caller);
    }
  }
}
