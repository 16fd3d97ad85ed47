/** The entity store shared by the post, category and tag services: one map per
    table, keyed by the database id, plus the counter that hands out fresh ids.
    A post refers to its author, its category and its tags by id; the store
    invariant `Consistent` says that those references resolve. */
module Model {

  type Id = int

  datatype Option<+T> = None | Some(value: T)

  /** The failures the services raise (each is a RuntimeException in the
      services, told apart here by kind rather than by message text). */
  datatype Error =
    | PostNotFound
    | UserNotFound
    | NoPermissionToUpdate
    | NoPermissionToDelete
    | CategoryNotFound
    | TagNotFound
    | CategoryNameExists
    | TagNameExists
    | CategoryHasPosts

  datatype Result<+T> = Ok(value: T) | Err(error: Error)

  /** What a successful transaction returns together with the store it commits. */
  datatype Committed<+T> = Committed(value: T, db: Db)

  datatype User = User(username: string)

  datatype Category = Category(name: string, description: string)

  datatype Tag = Tag(name: string)

  /** A stored post. Title and content are kept as given: the services do not
      validate them (the request layer does), so a missing title is `None`. */
  datatype Post = Post(
    title: Option<string>,
    content: Option<string>,
    author: Id,
    category: Option<Id>,
    tags: set<Id>)

  datatype Db = Db(
    users: map<Id, User>,
    categories: map<Id, Category>,
    tags: map<Id, Tag>,
    posts: map<Id, Post>,
    nextId: Id)

  /** The principal of the current request: the username it authenticated as and
      the authorities granted to it. */
  datatype Principal = Principal(username: string, authorities: set<string>)

  const RoleAdmin: string := "ROLE_ADMIN"

  predicate IsAdmin(caller: Principal) {
    RoleAdmin in caller.authorities
  }

  /** The rule shared by post update and delete: the caller's own user is the
      author, or the caller holds the admin authority. */
  predicate MayModify(callerId: Id, caller: Principal, post: Post) {
    post.author == callerId || IsAdmin(caller)
  }

  /** How a service method's outcome relates to the specification of its
      transaction: on success the method returns the committed value and the
      store is the committed one; on failure it raises the same error and the
      store is rolled back to what it was. */
  ghost predicate Applied<T>(r: Result<T>, before: Db, after: Db, spec: Result<Committed<T>>) {
    match spec
    case Ok(c) => r == Ok(c.value) && after == c.db
    case Err(e) => r == Err(e) && after == before
  }

  // ---- lookups the repositories provide ----

  predicate CategoryNameTaken(categories: map<Id, Category>, name: string) {
    exists id :: id in categories && categories[id].name == name
  }

  predicate TagNameTaken(tags: map<Id, Tag>, name: string) {
    exists id :: id in tags && tags[id].name == name
  }

  /** The user whose username is `name`; usernames are unique in a consistent store. */
  ghost function UserByName(users: map<Id, User>, name: string): (r: Option<Id>)
    ensures r.Some? ==> r.value in users && users[r.value].username == name
    ensures r.None? ==> forall id | id in users :: users[id].username != name
  {
    if exists id :: id in users && users[id].username == name then
      var id :| id in users && users[id].username == name;
      Some(id)
    else
      None
  }

  /** The posts of a category. The category entity's post collection is the
      inverse of the posts' category reference, so it is derived here. */
  function PostsOf(db: Db, category: Id): set<Id> {
    set p | p in db.posts && db.posts[p].category == Some(category)
  }

  // ---- the store invariant ----

  ghost predicate UniqueUsernames(users: map<Id, User>) {
    forall a, b | a in users && b in users && a != b :: users[a].username != users[b].username
  }

  ghost predicate UniqueCategoryNames(categories: map<Id, Category>) {
    forall a, b | a in categories && b in categories && a != b :: categories[a].name != categories[b].name
  }

  ghost predicate UniqueTagNames(tags: map<Id, Tag>) {
    forall a, b | a in tags && b in tags && a != b :: tags[a].name != tags[b].name
  }

  /** A post's author, category (when it has one) and tags all exist. */
  predicate PostResolves(db: Db, post: Post) {
    && post.author in db.users
    && (post.category.Some? ==> post.category.value in db.categories)
    && post.tags <= db.tags.Keys
  }

  ghost predicate ReferencesResolve(db: Db) {
    forall id | id in db.posts :: PostResolves(db, db.posts[id])
  }

  /** Every id in use lies below the counter, so the counter is always fresh. */
  ghost predicate IdsBelowCounter(db: Db) {
    && (forall id | id in db.categories :: id < db.nextId)
    && (forall id | id in db.tags :: id < db.nextId)
    && (forall id | id in db.posts :: id < db.nextId)
  }

  ghost predicate Consistent(db: Db) {
    && UniqueUsernames(db.users)
    && UniqueCategoryNames(db.categories)
    && UniqueTagNames(db.tags)
    && ReferencesResolve(db)
    && IdsBelowCounter(db)
  }

  /** In a consistent store the username lookup is determined: it finds the one
      user with that name, whichever witness was chosen. */
  lemma UserByNameUnique(users: map<Id, User>, name: string, id: Id)
    requires UniqueUsernames(users)
    requires id in users && users[id].username == name
    ensures UserByName(users, name) == Some(id)
  {
  }

  /** A non-empty set has a member to pick. */
  lemma NonEmptyHasMember(s: set<Id>)
    requires s != {}
    ensures exists x :: x in s
  {
    if forall x :: x !in s {
      assert false;
    }
  }

  /** A set of views keyed by id has as many elements as there are ids, when no
      two views share an id. */
  lemma {:induction false} KeyedSetSize<V>(views: set<V>, key: V -> Id, keys: set<Id>)
    requires forall k :: k in keys <==> exists v :: v in views && key(v) == k
    requires forall v, w | v in views && w in views && key(v) == key(w) :: v == w
    ensures |views| == |keys|
  {
    if views != {} {
      var v :| v in views;
      var rest := views - {v};
      var restKeys := keys - {key(v)};
      forall k
        ensures k in restKeys <==> exists w :: w in rest && key(w) == k
      {
        if k in restKeys {
          var w :| w in views && key(w) == k;
          assert w != v;
          assert w in rest;
        }
      }
      KeyedSetSize(rest, key, restKeys);
    } else {
      assert forall k :: k !in keys;
      assert keys == {};
    }
  }
}
