/** The repositories, as one mutable store object that all three services
    share. Its fields are the tables of `Model.Db`; `Snapshot` reads them off as
    a value, and `Valid` is the store invariant on that value. */
module Store {
  import opened Model

  class Store {
    var users: map<Id, User>
    var categories: map<Id, Category>
    var tags: map<Id, Tag>
    var posts: map<Id, Post>
    var nextId: Id

    function Snapshot(): Db
      reads this
    {
      Db(users, categories, tags, posts, nextId)
    }

    ghost predicate Valid()
      reads this
    {
      Consistent(Snapshot())
    }

    /** An empty blog over the users that registration has created; the
        database hands out ids from 1. */
    constructor (users: map<Id, User>)
      requires UniqueUsernames(users)
      ensures Valid()
      ensures Snapshot() == Db(users, map[], map[], map[], 1)
    {
      this.users := users;
      categories, tags, posts := map[], map[], map[];
      nextId := 1;
    }

    /** The user repository's lookup by username. */
    method FindUserByUsername(name: string) returns (r: Option<Id>)
      requires Valid()
      ensures r.Some? <==> exists id :: id in users && users[id].username == name
      ensures r == UserByName(users, name)
    {
      if id :| id in users && users[id].username == name {
        UserByNameUnique(users, name, id);
        r := Some(id);
      } else {
        r := None;
      }
    }

    /** Resolves every requested tag id through the tag repository, failing on
        the first id that names no tag. The ids are visited in no particular
        order, as the stream over the request's hash set visits them. */
    method ResolveTags(ids: set<Id>) returns (r: Result<set<Id>>)
      ensures r.Ok? <==> ids <= tags.Keys
      ensures r.Ok? ==> r.value == ids
      ensures r.Err? ==> r.error == TagNotFound
    {
      var remaining := ids;
      var resolved: set<Id> := {};
      while remaining != {}
        invariant remaining <= ids
        invariant resolved == ids - remaining
        invariant resolved <= tags.Keys
        decreases remaining
      {
        NonEmptyHasMember(remaining);
        var tagId :| tagId in remaining;
        if tagId !in tags {
          return Err(TagNotFound);
        }
        resolved := resolved + {tagId};
        remaining := remaining - {tagId};
      }
      r := Ok(resolved);
    }
  }
}
