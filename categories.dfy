/** The `{id: type}` dictionary of the Category table and `GET /categories`. */
module Categories {
  import opened Model
  import Errors

  /** The dictionary `categories_dict[category.id] = category.type` gives after
      visiting `cs` in order: a later row with the same id overwrites an earlier one. */
  function CategoryMap(cs: seq<Category>): map<int, string>
  {
    if cs == [] then map[]
    else CategoryMap(cs[..|cs| - 1])[cs[|cs| - 1].id := cs[|cs| - 1].kind]
  }

  /** The ids occurring in the table. */
  function CategoryIds(cs: seq<Category>): set<int>
  {
    set c | c in cs :: c.id
  }

  /** One key per category id, and no other key. */
  lemma {:induction false} CategoryMapKeys(cs: seq<Category>)
    ensures CategoryMap(cs).Keys == CategoryIds(cs)
  {
    if cs != [] {
      var init := cs[..|cs| - 1];
      CategoryMapKeys(init);
      assert cs == init + [cs[|cs| - 1]];
      assert CategoryIds(cs) == CategoryIds(init) + {cs[|cs| - 1].id};
    }
  }

  /** With unique ids (the table's primary key), every id maps to its own row's type. */
  lemma {:induction false} CategoryMapTypes(cs: seq<Category>)
    requires UniqueCategoryIds(cs)
    ensures forall k :: 0 <= k < |cs| ==> cs[k].id in CategoryMap(cs) && CategoryMap(cs)[cs[k].id] == cs[k].kind
  {
    if cs != [] {
      var init := cs[..|cs| - 1];
      CategoryMapTypes(init);
    }
  }

  /** The `for category in categories` loop of :57-59 and :90-92. */
  method BuildCategoryMap(cs: seq<Category>) returns (m: map<int, string>)
    ensures m == CategoryMap(cs)
    ensures m.Keys == CategoryIds(cs)
    ensures UniqueCategoryIds(cs) ==> forall k :: 0 <= k < |cs| ==> cs[k].id in m && m[cs[k].id] == cs[k].kind
  {
    m := map[];
    var i := 0;
    while i < |cs|
      invariant 0 <= i <= |cs|
      invariant m == CategoryMap(cs[..i])
    {
      assert cs[..i + 1][..i] == cs[..i];
      m := m[cs[i].id := cs[i].kind];
      i := i + 1;
    }
    assert cs[..|cs|] == cs;
    CategoryMapKeys(cs);
    if UniqueCategoryIds(cs) {
      CategoryMapTypes(cs);
    }
  }

  /** `GET /categories`. The `abort(404)` for an empty dictionary is raised inside
      the `try` and caught by `except Exception`, which aborts with 500. */
  method GetAllCategories(cs: seq<Category>) returns (r: Response)
    ensures cs == [] ==> r == Errors.ErrorResponse(ServerError)
    ensures cs != [] ==> r.status == OK && r.body == CategoriesBody(CategoryMap(cs))
    ensures r.status == OK ==> r.body.categories.Keys == CategoryIds(cs)
  {
    var categories := BuildCategoryMap(cs);
    if |categories| == 0 {
      r := Errors.ErrorResponse(ServerError);
    } else {
      r := Response(OK, CategoriesBody(categories));
    }
  }
}
