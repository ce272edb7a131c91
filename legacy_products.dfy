/** The older single-operation product handlers (`api/addProduct.js`,
    `api/updateProduct.js`, `api/deleteProduct.js`), each working on the
    products file as a `Collection`. Each checks the HTTP method itself, takes
    the id from the query string and touches no image file. */
module LegacyProducts {
  import opened Util
  import opened Json
  import opened Store
  import ProductsApi

  /** The record the older add handler builds: no `stock`, and the price is
      `parseFloat(price)` with NaN kept (as `null`). */
  function LegacyNewProduct(id: int, payload: Fields, now: string): (r: Record)
    requires ProductsApi.HasNameAndPrice(payload)
    ensures r.id == id && "id" !in r.fields && Defined(r.fields)
    ensures r.fields.Keys == {"name", "category", "price", "description", "image", "createdAt", "updatedAt"}
    ensures r.fields["name"] == payload["name"]
    ensures r.fields["price"] == NumberOrNull(ParseFloat(payload["price"]))
    ensures r.fields["category"] == ProductsApi.OrEmpty(Get(payload, "category"))
    ensures r.fields["description"] == ProductsApi.OrEmpty(Get(payload, "description"))
    ensures r.fields["image"] == ProductsApi.ChosenImage(None, Get(payload, "image"))
    ensures r.fields["createdAt"] == r.fields["updatedAt"] == Str(now)
  {
    Record(id, StampedFields("name", payload["name"],
                             "category", ProductsApi.OrEmpty(Get(payload, "category")),
                             "price", NumberOrNull(ParseFloat(payload["price"])),
                             "description", ProductsApi.OrEmpty(Get(payload, "description")),
                             "image", ProductsApi.ChosenImage(None, Get(payload, "image")), now))
  }

  /** The id query parameter: absent or empty fails the `!id` guard. */
  predicate HasId(queryId: Option<string>) {
    queryId.Some? && queryId.value != ""
  }

  /** `api/addProduct.js`: 405, then 400 before the file is read, then push. */
  method Add(file: Collection, httpMethod: string, body: Fields, now: string) returns (resp: Response)
    modifies file
    ensures httpMethod != "POST" ==> resp == MethodNotAllowed
    ensures httpMethod == "POST" && !ProductsApi.HasNameAndPrice(body) ==> resp == BadRequest
    ensures !resp.Created? ==> file.records == old(file.records) && file.saved == old(file.saved)
    ensures httpMethod == "POST" && ProductsApi.HasNameAndPrice(body) ==>
      resp == Created(LegacyNewProduct(NextId(old(file.records)), body, now))
      && file.records == old(file.records) + [resp.record]
      && file.saved == old(file.saved) + [file.records]
    ensures old(UniqueIds(file.records)) ==> UniqueIds(file.records)
  {
    if httpMethod != "POST" {
      return MethodNotAllowed;
    }
    if !ProductsApi.HasNameAndPrice(body) {
      return BadRequest;
    }
    var product := LegacyNewProduct(NextId(file.records), body, now);
    file.Push(product);
    resp := Created(product);
  }

  /** `api/updateProduct.js`: 405, then 400 for a missing id before the file is
      read, then 404 before the name/price check; the price is stored unparsed. */
  method Update(file: Collection, httpMethod: string, queryId: Option<string>, body: Fields, now: string)
    returns (resp: Response)
    modifies file
    ensures httpMethod != "PUT" ==> resp == MethodNotAllowed
    ensures httpMethod == "PUT" && !HasId(queryId) ==> resp == BadRequest
    ensures !resp.Updated? ==> file.records == old(file.records) && file.saved == old(file.saved)
    ensures httpMethod == "PUT" && HasId(queryId) ==>
      var i := FindIndex(old(file.records), ParseIntText(queryId.value));
      if i == -1 then resp == NotFound
      else if !ProductsApi.HasNameAndPrice(body) then resp == BadRequest
      else
        resp == Updated(Merge(old(file.records)[i], body, now))
        && file.records == old(file.records)[i := resp.record]
        && file.saved == old(file.saved) + [file.records]
    ensures old(UniqueIds(file.records)) ==> UniqueIds(file.records)
  {
    if httpMethod != "PUT" {
      return MethodNotAllowed;
    }
    if !HasId(queryId) {
      return BadRequest;
    }
    var i := FindIndex(file.records, ParseIntText(queryId.value));
    if i == -1 {
      return NotFound;
    }
    if !ProductsApi.HasNameAndPrice(body) {
      return BadRequest;
    }
    var updated := Merge(file.records[i], body, now);
    file.Assign(i, updated);
    resp := Updated(updated);
  }

  /** `api/deleteProduct.js`: 405, 400, then the shared delete; no file is touched. */
  method Delete(file: Collection, httpMethod: string, queryId: Option<string>) returns (resp: Response)
    modifies file
    ensures httpMethod != "DELETE" ==> resp == MethodNotAllowed
    ensures httpMethod == "DELETE" && !HasId(queryId) ==> resp == BadRequest
    ensures !resp.Deleted? ==> file.records == old(file.records) && file.saved == old(file.saved)
    ensures httpMethod == "DELETE" && HasId(queryId) ==>
      var i := FindIndex(old(file.records), ParseIntText(queryId.value));
      if i == -1 then resp == NotFound
      else
        resp == Deleted(old(file.records)[i])
        && file.records == RemoveAt(old(file.records), i)
        && file.saved == old(file.saved) + [file.records]
    ensures old(UniqueIds(file.records)) ==> UniqueIds(file.records)
  {
    if httpMethod != "DELETE" {
      return MethodNotAllowed;
    }
    if !HasId(queryId) {
      return BadRequest;
    }
    resp := file.Delete(queryId.value);
  }
}
