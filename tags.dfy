/** The tag service: list, fetch, create, update and delete tags. Names are
    unique with the same own-name exception on update as categories; deletion
    is not guarded. The model takes deletion to detach the tag from every post
    that carries it (`Detached`). */
module Tags {
  import opened Model
  import opened Store

  datatype TagRequest = TagRequest(name: string)

  datatype TagView = TagView(id: Id, name: string)

  function ToView(id: Id, t: Tag): TagView {
    TagView(id, t.name)
  }

  function KeyOf(v: TagView): Id {
    v.id
  }

  /** The views of the tags with the given ids, one per id. */
  function ViewsOf(tags: map<Id, Tag>, ids: set<Id>): (r: set<TagView>)
    requires ids <= tags.Keys
    ensures forall v | v in r :: v.id in ids && v == ToView(v.id, tags[v.id])
    ensures forall id | id in ids :: ToView(id, tags[id]) in r
    ensures (set v | v in r :: v.id) == ids
    ensures |r| == |ids|
  {
    var r := set id | id in ids :: ToView(id, tags[id]);
    assert forall id :: id in ids <==> exists v :: v in r && KeyOf(v) == id by {
      forall id | id in ids ensures exists v :: v in r && KeyOf(v) == id {
        assert ToView(id, tags[id]) in r;
      }
    }
    KeyedSetSize(r, KeyOf, ids);
    r
  }

  /** The posts once the tag `id` is gone: each keeps every field but loses
      `id` from its tag set. */
  function Detached(posts: map<Id, Post>, id: Id): map<Id, Post> {
    map p | p in posts :: posts[p].(tags := posts[p].tags - {id})
  }

  // ---- the transactions, as functions of the store ----

  ghost function Create(db: Db, req: TagRequest): Result<Committed<TagView>> {
    if TagNameTaken(db.tags, req.name) then
      Err(TagNameExists)
    else
      var id := db.nextId;
      var t := Tag(req.name);
      Ok(Committed(ToView(id, t), db.(tags := db.tags[id := t], nextId := id + 1)))
  }

  ghost function Update(db: Db, id: Id, req: TagRequest): Result<Committed<TagView>> {
    if id !in db.tags then
      Err(TagNotFound)
    else if db.tags[id].name != req.name && TagNameTaken(db.tags, req.name) then
      Err(TagNameExists)
    else
      var t := Tag(req.name);
      Ok(Committed(ToView(id, t), db.(tags := db.tags[id := t])))
  }

  ghost function Delete(db: Db, id: Id): Result<Committed<()>> {
    if id !in db.tags then
      Err(TagNotFound)
    else
      Ok(Committed((), db.(tags := db.tags - {id}, posts := Detached(db.posts, id))))
  }

  // ---- properties of the transactions ----

  /** Create fails exactly when some tag already has the name; otherwise it
      stores a tag with that name under a fresh id and touches nothing else. */
  lemma CreateOutcome(db: Db, req: TagRequest)
    requires Consistent(db)
    ensures Create(db, req).Err? <==> exists t :: t in db.tags && db.tags[t].name == req.name
    ensures Create(db, req).Err? ==> Create(db, req).error == TagNameExists
    ensures Create(db, req).Ok? ==>
      var Committed(v, db') := Create(db, req).value;
      && v.id !in db.tags && v.name == req.name
      && db'.tags.Keys == db.tags.Keys + {v.id}
      && db'.tags[v.id] == Tag(req.name)
      && (forall t | t in db.tags :: db'.tags[t] == db.tags[t])
      && db'.posts == db.posts && db'.categories == db.categories && db'.users == db.users
  {
  }

  /** Update fails on an unknown id; on a known one it fails exactly when
      another tag holds the requested name. */
  lemma UpdateConflict(db: Db, id: Id, req: TagRequest)
    requires Consistent(db)
    ensures id !in db.tags ==> Update(db, id, req) == Err(TagNotFound)
    ensures id in db.tags ==>
      (Update(db, id, req).Err? <==>
        exists other :: other in db.tags && other != id && db.tags[other].name == req.name)
    ensures id in db.tags && Update(db, id, req).Err? ==> Update(db, id, req).error == TagNameExists
    ensures id in db.tags && db.tags[id].name == req.name ==> Update(db, id, req).Ok?
  {
    if id in db.tags && Update(db, id, req).Err? {
      var other :| other in db.tags && db.tags[other].name == req.name;
      assert other != id;
    }
  }

  /** A successful update renames that tag only and changes no other table. */
  lemma UpdateFrame(db: Db, id: Id, req: TagRequest)
    requires Update(db, id, req).Ok?
    ensures var Committed(v, db') := Update(db, id, req).value;
      && v == TagView(id, req.name)
      && db'.tags.Keys == db.tags.Keys
      && db'.tags[id] == Tag(req.name)
      && (forall t | t in db.tags && t != id :: db'.tags[t] == db.tags[t])
      && db'.posts == db.posts && db'.categories == db.categories && db'.users == db.users
      && db'.nextId == db.nextId
  {
  }

  /** Delete fails only on an unknown id. Otherwise it removes the tag whatever
      posts carry it, takes it out of their tag sets, and leaves every other
      field of every post as it was. */
  lemma DeleteOutcome(db: Db, id: Id)
    ensures Delete(db, id).Err? <==> id !in db.tags
    ensures Delete(db, id).Err? ==> Delete(db, id).error == TagNotFound
    ensures Delete(db, id).Ok? ==>
      var db' := Delete(db, id).value.db;
      && db'.tags.Keys == db.tags.Keys - {id}
      && (forall t | t in db'.tags :: db'.tags[t] == db.tags[t])
      && db'.posts.Keys == db.posts.Keys
      && (forall p | p in db.posts ::
            && db'.posts[p].tags == db.posts[p].tags - {id}
            && db'.posts[p].(tags := {}) == db.posts[p].(tags := {}))
      && db'.categories == db.categories && db'.users == db.users
  {
  }

  /** Each transaction keeps the store consistent: tag names stay pairwise
      distinct and every post's tags still exist. */
  lemma CreatePreserves(db: Db, req: TagRequest)
    requires Consistent(db)
    ensures Create(db, req).Ok? ==> Consistent(Create(db, req).value.db)
  {
    if Create(db, req).Ok? {
      var db' := Create(db, req).value.db;
      forall a, b | a in db'.tags && b in db'.tags && a != b
        ensures db'.tags[a].name != db'.tags[b].name
      {
        if a == db.nextId {
          assert db.tags[b].name != req.name;
        } else if b == db.nextId {
          assert db.tags[a].name != req.name;
        }
      }
    }
  }

  lemma UpdatePreserves(db: Db, id: Id, req: TagRequest)
    requires Consistent(db)
    ensures Update(db, id, req).Ok? ==> Consistent(Update(db, id, req).value.db)
  {
    if Update(db, id, req).Ok? {
      assert forall other | other in db.tags && other != id :: db.tags[other].name != req.name;
    }
  }

  lemma DeletePreserves(db: Db, id: Id)
    requires Consistent(db)
    ensures Delete(db, id).Ok? ==> Consistent(Delete(db, id).value.db)
  {
    if Delete(db, id).Ok? {
      var db' := Delete(db, id).value.db;
      forall p | p in db'.posts
        ensures PostResolves(db', db'.posts[p])
      {
        assert PostResolves(db, db.posts[p]);
      }
    }
  }

  /** The service object, over the shared store. */
  class TagService {
    const store: Store

    constructor (store: Store)
      ensures this.store == store
    {
      this.store := store;
    }

    function GetAllTags(): (r: set<TagView>)
      reads store
      ensures forall v | v in r :: v.id in store.tags && v.name == store.tags[v.id].name
      ensures forall id | id in store.tags :: exists v :: v in r && v.id == id
      ensures |r| == |store.tags|
    {
      ViewsOf(store.tags, store.tags.Keys)
    }

    function GetTagById(id: Id): (r: Result<TagView>)
      reads store
      ensures r.Err? <==> id !in store.tags
      ensures r.Err? ==> r.error == TagNotFound
      ensures r.Ok? ==> r.value.id == id && r.value.name == store.tags[id].name
    {
      if id in store.tags then Ok(ToView(id, store.tags[id])) else Err(TagNotFound)
    }

    method CreateTag(req: TagRequest) returns (r: Result<TagView>)
      requires store.Valid()
      modifies store
      ensures store.Valid()
      ensures Applied(r, old(store.Snapshot()), store.Snapshot(), Create(old(store.Snapshot()), req))
    {
      CreatePreserves(store.Snapshot(), req);
      if TagNameTaken(store.tags, req.name) {
        return Err(TagNameExists);
      }
      var tag := Tag(req.name);
      var id := store.nextId;
      store.tags := store.tags[id := tag];
      store.nextId := id + 1;
      r := Ok(ToView(id, tag));
    }

    method UpdateTag(id: Id, req: TagRequest) returns (r: Result<TagView>)
      requires store.Valid()
      modifies store
      ensures store.Valid()
      ensures Applied(r, old(store.Snapshot()), store.Snapshot(), Update(old(store.Snapshot()), id, req))
    {
      UpdatePreserves(store.Snapshot(), id, req);
      if id !in store.tags {
        return Err(TagNotFound);
      }
      var tag := store.tags[id];
      if tag.name != req.name && TagNameTaken(store.tags, req.name) {
        return Err(TagNameExists);
      }
      tag := tag.(name := req.name);
      store.tags := store.tags[id := tag];
      r := Ok(ToView(id, tag));
    }

    method DeleteTag(id: Id) returns (r: Result<()>)
      requires store.Valid()
      modifies store
      ensures store.Valid()
      ensures Applied(r, old(store.Snapshot()), store.Snapshot(), Delete(old(store.Snapshot()), id))
    {
      DeletePreserves(store.Snapshot(), id);
      if id !in store.tags {
        return Err(TagNotFound);
      }
      store.posts := Detached(store.posts, id);
      store.tags := store.tags - {id};
      r := Ok(());
    }
  }
}
