/** The category handler (`api/categories.js`) over `data/categories.json`. */
module CategoriesApi {
  import opened Text
  import opened Json
  import opened Store
  import ProductsApi

  /** The five properties of a category record, none of them `undefined`. */
  function CategoryFields(name: string, slug: string, description: Value, now: string): (m: Fields)
    requires description != Undefined
    ensures m.Keys == {"name", "slug", "description", "createdAt", "updatedAt"}
    ensures Defined(m)
    ensures m["name"] == Str(name) && m["slug"] == Str(slug) && m["description"] == description
    ensures m["createdAt"] == m["updatedAt"] == Str(now)
  {
    map["name" := Str(name), "slug" := Str(slug), "description" := description,
        "createdAt" := Str(now), "updatedAt" := Str(now)]
  }

  /** The record `addCategory` builds from a string name. */
  function NewCategory(id: int, name: string, body: Fields, now: string): (r: Record)
    ensures r.id == id && "id" !in r.fields && Defined(r.fields)
    ensures r.fields.Keys == {"name", "slug", "description", "createdAt", "updatedAt"}
    ensures r.fields["name"] == Str(name)
    ensures r.fields["slug"] == Str(CategorySlug(name))
    ensures r.fields["description"] == ProductsApi.OrEmpty(Get(body, "description"))
    ensures r.fields["createdAt"] == r.fields["updatedAt"] == Str(now)
  {
    Record(id, CategoryFields(name, CategorySlug(name), ProductsApi.OrEmpty(Get(body, "description")), now))
  }

  /** `{...old, ...body, id, slug: name.toLowerCase().replace(/\s+/g, '-'), updatedAt}`:
      the slug always follows the new name, whatever slug the payload sent. */
  function MergeCategory(previous: Record, name: string, body: Fields, now: string): (r: Record)
    ensures r.id == previous.id && "id" !in r.fields && Defined(r.fields)
    ensures Get(r.fields, "slug") == Str(CategorySlug(name))
    ensures forall k :: k !in {"id", "slug", "updatedAt"} ==>
      Get(r.fields, k) == (if k in body then body[k] else Get(previous.fields, k))
    ensures Get(r.fields, "updatedAt") == Str(now)
  {
    var merged := Merge(previous, body, now);
    Record(previous.id, Put(merged.fields, "slug", Str(CategorySlug(name))))
  }

  /** `addCategory`: 400 for a falsy name, 500 for a name without `toLowerCase`,
      otherwise push the new category with the next id. */
  method AddCategory(file: Collection, body: Fields, now: string) returns (resp: Response)
    modifies file
    ensures var name := Get(body, "name");
      if !Truthy(name) then resp == BadRequest
      else if !name.Str? then resp == ServerError
      else resp == Created(NewCategory(NextId(old(file.records)), name.s, body, now))
           && file.records == old(file.records) + [resp.record]
           && file.saved == old(file.saved) + [file.records]
    ensures !resp.Created? ==> file.records == old(file.records) && file.saved == old(file.saved)
    ensures old(UniqueIds(file.records)) ==> UniqueIds(file.records)
  {
    var name := Get(body, "name");
    if !Truthy(name) {
      return BadRequest;
    }
    if !name.Str? {
      return ServerError;
    }
    var category := NewCategory(NextId(file.records), name.s, body, now);
    file.Push(category);
    resp := Created(category);
  }

  /** `updateCategory`: 404 before the name check, then replace the record in
      place with the merge and write. */
  method UpdateCategory(file: Collection, id: string, body: Fields, now: string) returns (resp: Response)
    modifies file
    ensures var i := FindIndex(old(file.records), ParseIntText(id));
      var name := Get(body, "name");
      if i == -1 then resp == NotFound
      else if !Truthy(name) then resp == BadRequest
      else if !name.Str? then resp == ServerError
      else resp == Updated(MergeCategory(old(file.records)[i], name.s, body, now))
           && file.records == old(file.records)[i := resp.record]
           && file.saved == old(file.saved) + [file.records]
    ensures !resp.Updated? ==> file.records == old(file.records) && file.saved == old(file.saved)
    ensures old(UniqueIds(file.records)) ==> UniqueIds(file.records)
  {
    var i := FindIndex(file.records, ParseIntText(id));
    if i == -1 {
      return NotFound;
    }
    var name := Get(body, "name");
    if !Truthy(name) {
      return BadRequest;
    }
    if !name.Str? {
      return ServerError;
    }
    var updated := MergeCategory(file.records[i], name.s, body, now);
    file.Assign(i, updated);
    resp := Updated(updated);
  }
}
