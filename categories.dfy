/** The category service: list, fetch, create, update and delete categories.
    Names are unique; a rename to the category's own current name is allowed;
    a category that still has posts cannot be deleted. */
module Categories {
  import opened Model
  import opened Store

  datatype CategoryRequest = CategoryRequest(name: string, description: string)

  datatype CategoryView = CategoryView(id: Id, name: string, description: string)

  function ToView(id: Id, c: Category): CategoryView {
    CategoryView(id, c.name, c.description)
  }

  function KeyOf(v: CategoryView): Id {
    v.id
  }

  /** The views of all stored categories, one per stored category. */
  function AllViews(categories: map<Id, Category>): (r: set<CategoryView>)
    ensures forall v | v in r :: v.id in categories && v == ToView(v.id, categories[v.id])
    ensures forall id | id in categories :: ToView(id, categories[id]) in r
    ensures |r| == |categories|
  {
    var r := set id | id in categories :: ToView(id, categories[id]);
    assert forall id :: id in categories.Keys <==> exists v :: v in r && KeyOf(v) == id by {
      forall id | id in categories.Keys ensures exists v :: v in r && KeyOf(v) == id {
        assert ToView(id, categories[id]) in r;
      }
    }
    KeyedSetSize(r, KeyOf, categories.Keys);
    r
  }

  // ---- the transactions, as functions of the store ----

  ghost function Create(db: Db, req: CategoryRequest): Result<Committed<CategoryView>> {
    if CategoryNameTaken(db.categories, req.name) then
      Err(CategoryNameExists)
    else
      var id := db.nextId;
      var c := Category(req.name, req.description);
      Ok(Committed(ToView(id, c), db.(categories := db.categories[id := c], nextId := id + 1)))
  }

  ghost function Update(db: Db, id: Id, req: CategoryRequest): Result<Committed<CategoryView>> {
    if id !in db.categories then
      Err(CategoryNotFound)
    else if db.categories[id].name != req.name && CategoryNameTaken(db.categories, req.name) then
      Err(CategoryNameExists)
    else
      var c := Category(req.name, req.description);
      Ok(Committed(ToView(id, c), db.(categories := db.categories[id := c])))
  }

  ghost function Delete(db: Db, id: Id): Result<Committed<()>> {
    if id !in db.categories then
      Err(CategoryNotFound)
    else if PostsOf(db, id) != {} then
      Err(CategoryHasPosts)
    else
      Ok(Committed((), db.(categories := db.categories - {id})))
  }

  // ---- properties of the transactions ----

  /** Create fails exactly when some category already has the name; otherwise
      it stores exactly that name and description under a fresh id and touches
      nothing else. */
  lemma CreateOutcome(db: Db, req: CategoryRequest)
    requires Consistent(db)
    ensures Create(db, req).Err? <==> exists c :: c in db.categories && db.categories[c].name == req.name
    ensures Create(db, req).Err? ==> Create(db, req).error == CategoryNameExists
    ensures Create(db, req).Ok? ==>
      var Committed(v, db') := Create(db, req).value;
      && v.id !in db.categories
      && v.name == req.name && v.description == req.description
      && db'.categories.Keys == db.categories.Keys + {v.id}
      && db'.categories[v.id] == Category(req.name, req.description)
      && (forall c | c in db.categories :: db'.categories[c] == db.categories[c])
      && db'.posts == db.posts && db'.tags == db.tags && db'.users == db.users
  {
  }

  /** Update fails on an unknown id; on a known one it fails exactly when
      another category holds the requested name, so resubmitting the
      category's own name always succeeds. */
  lemma UpdateConflict(db: Db, id: Id, req: CategoryRequest)
    requires Consistent(db)
    ensures id !in db.categories ==> Update(db, id, req) == Err(CategoryNotFound)
    ensures id in db.categories ==>
      (Update(db, id, req).Err? <==>
        exists other :: other in db.categories && other != id && db.categories[other].name == req.name)
    ensures id in db.categories && Update(db, id, req).Err? ==> Update(db, id, req).error == CategoryNameExists
    ensures id in db.categories && db.categories[id].name == req.name ==> Update(db, id, req).Ok?
  {
    if id in db.categories && Update(db, id, req).Err? {
      var other :| other in db.categories && db.categories[other].name == req.name;
      assert other != id;
    }
  }

  /** A successful update overwrites the name and description of that category
      and of no other, and changes no other table. */
  lemma UpdateFrame(db: Db, id: Id, req: CategoryRequest)
    requires Update(db, id, req).Ok?
    ensures var Committed(v, db') := Update(db, id, req).value;
      && v == CategoryView(id, req.name, req.description)
      && db'.categories.Keys == db.categories.Keys
      && db'.categories[id] == Category(req.name, req.description)
      && (forall c | c in db.categories && c != id :: db'.categories[c] == db.categories[c])
      && db'.posts == db.posts && db'.tags == db.tags && db'.users == db.users && db'.nextId == db.nextId
  {
  }

  /** Delete fails on an unknown id, fails exactly when at least one post
      refers to the category, and otherwise removes that category only. */
  lemma DeleteOutcome(db: Db, id: Id)
    ensures id !in db.categories ==> Delete(db, id) == Err(CategoryNotFound)
    ensures id in db.categories ==>
      (Delete(db, id) == Err(CategoryHasPosts) <==> exists p :: p in db.posts && db.posts[p].category == Some(id))
    ensures Delete(db, id).Ok? ==>
      var db' := Delete(db, id).value.db;
      && db'.categories.Keys == db.categories.Keys - {id}
      && (forall c | c in db'.categories :: db'.categories[c] == db.categories[c])
      && db'.posts == db.posts && db'.tags == db.tags && db'.users == db.users
  {
    if id in db.categories && Delete(db, id) == Err(CategoryHasPosts) {
      NonEmptyHasMember(PostsOf(db, id));
      var p :| p in PostsOf(db, id);
    }
    if id in db.categories && exists p :: p in db.posts && db.posts[p].category == Some(id) {
      var p :| p in db.posts && db.posts[p].category == Some(id);
      assert p in PostsOf(db, id);
    }
  }

  /** Each transaction keeps the store consistent: names stay pairwise distinct
      and every post's category still exists. */
  lemma CreatePreserves(db: Db, req: CategoryRequest)
    requires Consistent(db)
    ensures Create(db, req).Ok? ==> Consistent(Create(db, req).value.db)
  {
    if Create(db, req).Ok? {
      var db' := Create(db, req).value.db;
      forall a, b | a in db'.categories && b in db'.categories && a != b
        ensures db'.categories[a].name != db'.categories[b].name
      {
        if a == db.nextId {
          assert db.categories[b].name != req.name;
        } else if b == db.nextId {
          assert db.categories[a].name != req.name;
        }
      }
    }
  }

  lemma UpdatePreserves(db: Db, id: Id, req: CategoryRequest)
    requires Consistent(db)
    ensures Update(db, id, req).Ok? ==> Consistent(Update(db, id, req).value.db)
  {
    if Update(db, id, req).Ok? {
      assert forall other | other in db.categories && other != id :: db.categories[other].name != req.name;
    }
  }

  lemma DeletePreserves(db: Db, id: Id)
    requires Consistent(db)
    ensures Delete(db, id).Ok? ==> Consistent(Delete(db, id).value.db)
  {
    if Delete(db, id).Ok? {
      var db' := Delete(db, id).value.db;
      forall p | p in db'.posts
        ensures PostResolves(db', db'.posts[p])
      {
        assert p !in PostsOf(db, id);
      }
    }
  }

  /** The service object, over the shared store. */
  class CategoryService {
    const store: Store

    constructor (store: Store)
      ensures this.store == store
    {
      this.store := store;
    }

    function GetAllCategories(): (r: set<CategoryView>)
      reads store
      ensures forall v | v in r ::
        && v.id in store.categories
        && v.name == store.categories[v.id].name
        && v.description == store.categories[v.id].description
      ensures forall id | id in store.categories :: exists v :: v in r && v.id == id
      ensures |r| == |store.categories|
    {
      AllViews(store.categories)
    }

    function GetCategoryById(id: Id): (r: Result<CategoryView>)
      reads store
      ensures r.Err? <==> id !in store.categories
      ensures r.Err? ==> r.error == CategoryNotFound
      ensures r.Ok? ==>
        && r.value.id == id
        && r.value.name == store.categories[id].name
        && r.value.description == store.categories[id].description
    {
      if id in store.categories then Ok(ToView(id, store.categories[id])) else Err(CategoryNotFound)
    }

    method CreateCategory(req: CategoryRequest) returns (r: Result<CategoryView>)
      requires store.Valid()
      modifies store
      ensures store.Valid()
      ensures Applied(r, old(store.Snapshot()), store.Snapshot(), Create(old(store.Snapshot()), req))
    {
      CreatePreserves(store.Snapshot(), req);
      if CategoryNameTaken(store.categories, req.name) {
        return Err(CategoryNameExists);
      }
      var category := Category(req.name, req.description);
      var id := store.nextId;
      store.categories := store.categories[id := category];
      store.nextId := id + 1;
      r := Ok(ToView(id, category));
    }

    method UpdateCategory(id: Id, req: CategoryRequest) returns (r: Result<CategoryView>)
      requires store.Valid()
      modifies store
      ensures store.Valid()
      ensures Applied(r, old(store.Snapshot()), store.Snapshot(), Update(old(store.Snapshot()), id, req))
    {
      UpdatePreserves(store.Snapshot(), id, req);
      if id !in store.categories {
        return Err(CategoryNotFound);
      }
      var category := store.categories[id];
      if category.name != req.name && CategoryNameTaken(store.categories, req.name) {
        return Err(CategoryNameExists);
      }
      category := category.(name := req.name, description := req.description);
      store.categories := store.categories[id := category];
      r := Ok(ToView(id, category));
    }

    method DeleteCategory(id: Id) returns (r: Result<()>)
      requires store.Valid()
      modifies store
      ensures store.Valid()
      ensures Applied(r, old(store.Snapshot()), store.Snapshot(), Delete(old(store.Snapshot()), id))
    {
      DeletePreserves(store.Snapshot(), id);
      if id !in store.categories {
        return Err(CategoryNotFound);
      }
      if PostsOf(store.Snapshot(), id) != {} {
        return Err(CategoryHasPosts);
      }
      store.categories := store.categories - {id};
      r := Ok(());
    }
  }
}
