/** Item categories: the full list, and adding a category under a name no category has yet. */
module Categories {
  import opened Common
  import opened Tables
  import opened Records
  import opened Persistence

  const CATEGORY := "Category"

  /** A category as the endpoints return it. */
  datatype CategoryResponse = CategoryResponse(categoryId: nat, categoryName: Option<string>)

  function ResponseOf(row: Row<nat, Category>): CategoryResponse {
    CategoryResponse(row.key, row.rec.categoryName)
  }

  /** `existsByCategoryName`: some stored category carries exactly this name (a null name
      matches a category without one, as the derived query compares with IS NULL). */
  predicate NameTaken(t: Table<nat, Category>, name: Option<string>) {
    exists row :: row in t && row.rec.categoryName == name
  }

  /** No two stored categories carry the same name. */
  ghost predicate NamesUnique(t: Table<nat, Category>) {
    forall i, j :: 0 <= i < j < |t| ==> t[i].rec.categoryName != t[j].rec.categoryName
  }

  /** `getAllCategories`: every stored category, in storage order, with its id and name. */
  function AllCategories(s: Store): (rs: seq<CategoryResponse>)
    ensures |rs| == |s.categories|
    ensures forall i :: 0 <= i < |rs| ==>
      rs[i].categoryId == s.categories[i].key && rs[i].categoryName == s.categories[i].rec.categoryName
  {
    MapSeq(s.categories, ResponseOf)
  }

  /** `addCategory`: a name already in use fails and changes nothing; otherwise the category
      is stored under the next generated id, which the response echoes with the name. The
      request carries no validation, so the name may be null: the first category without a
      name is stored like any other, and later ones are refused as taken. */
  function Add(s: Store, name: Option<string>): (o: Outcome<CategoryResponse>)
    ensures o.result.Err? <==> NameTaken(s.categories, name)
    ensures o.result.Err? ==> o == Outcome(Err(AlreadyExists(CATEGORY)), s)
    ensures o.result.Ok? ==>
      && o.result.value.categoryName == name
      && o.result.value.categoryId !in Keys(s.categories)
      && o.store == s.(categories := s.categories + [Row(o.result.value.categoryId, Category(name))])
  {
    if NameTaken(s.categories, name) then Outcome(Err(AlreadyExists(CATEGORY)), s)
    else
      var id := NextKey(s.categories);
      Outcome(Ok(CategoryResponse(id, name)), s.(categories := Save(s.categories, id, Category(name))))
  }

  method AddCategory(db: Repositories, name: Option<string>) returns (r: Result<CategoryResponse>)
    requires db.Valid()
    modifies db
    ensures db.Valid()
    ensures Outcome(r, db.store) == Add(old(db.store), name)
  {
    if NameTaken(db.store.categories, name) {
      return Err(AlreadyExists(CATEGORY));
    }
    var id := NextKey(db.store.categories);
    db.store := db.store.(categories := Save(db.store.categories, id, Category(name)));
    r := Ok(CategoryResponse(id, name));
  }

  /** Adding keeps category names unique. */
  lemma AddKeepsNamesUnique(s: Store, name: Option<string>)
    requires NamesUnique(s.categories)
    ensures NamesUnique(Add(s, name).store.categories)
  {
    var o := Add(s, name);
    if o.result.Ok? {
      var t := o.store.categories;
      forall i, j | 0 <= i < j < |t|
        ensures t[i].rec.categoryName != t[j].rec.categoryName
      {
        if j == |t| - 1 {
          assert t[i] == s.categories[i];
          assert s.categories[i] in s.categories;
        } else {
          assert t[i] == s.categories[i] && t[j] == s.categories[j];
        }
      }
    }
  }

  /** The added category is listed last, exactly as the add answered, after the ones before. */
  lemma AddedCategoryListedLast(s: Store, name: Option<string>)
    requires Add(s, name).result.Ok?
    ensures AllCategories(Add(s, name).store) == AllCategories(s) + [Add(s, name).result.value]
  {
    var o := Add(s, name);
    MapSeqSnoc(s.categories, Row(o.result.value.categoryId, Category(name)), ResponseOf);
  }

  /** A name that was just added is refused the second time. */
  lemma AddTwiceRefused(s: Store, name: Option<string>)
    requires Add(s, name).result.Ok?
    ensures Add(Add(s, name).store, name) == Outcome(Err(AlreadyExists(CATEGORY)), Add(s, name).store)
  {
    var after := Add(s, name).store;
    assert Row(Add(s, name).result.value.categoryId, Category(name)) in after.categories;
  }
}
