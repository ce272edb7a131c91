/** The product handler: the products array loaded from and stored to
    `data/products.json`, plus the uploaded image files under `public/`.
    Files are identified by the public path the product's `image` holds
    (`/uploads/<file name>`). Every file-system call the handlers make on that
    state is appended, in order, to `effects`. */
module ProductsApi {
  import opened Util
  import opened Text
  import opened Json
  import opened Store

  /** The image a product gets when neither an upload nor the payload names one. */
  const Placeholder: string := "https://via.placeholder.com/300x200?text=No+Image"

  /** A name multer generated for a stored upload: never empty, never containing `/`. */
  type FileName = s: string | s != [] && '/' !in s witness "f"

  /** `'/uploads/' + path.basename(req.file.path)`: where an upload is served from. */
  function UploadPath(name: FileName): (p: string)
    ensures StartsWith(p, "/uploads/") && Basename(p) == name
  {
    BasenameOfJoin("/uploads/", name);
    "/uploads/" + name
  }

  /** A file-system call: an `unlink` of one file, or a `writeFile` of the whole array. */
  datatype Effect = Unlink(path: string) | Write(snapshot: seq<Record>)

  /** The fields a multipart form carries, read one by one from `req.body`. */
  const FormKeys: set<string> := {"name", "category", "price", "description", "stock"}

  /** An update request: a JSON body, or a multipart form with an optional file. */
  datatype UpdateBody = JsonBody(json: Fields) | FormBody(form: Fields, file: Option<FileName>)
  {
    /** The object the handler works from (`updatedData`). */
    function Data(): Fields {
      match this
      case JsonBody(json) => json
      case FormBody(form, _) => Pick(form, FormKeys)
    }

    function Upload(): Option<FileName> {
      if FormBody? then file else None
    }
  }

  /** The object `addProduct` works from: the five form fields when a file came
      with the request, the whole JSON body otherwise. */
  function AddPayload(body: Fields, upload: Option<FileName>): Fields {
    if upload.Some? then Pick(body, FormKeys) else body
  }

  /** The `!data.name || !data.price` guard of both add and update. */
  predicate HasNameAndPrice(data: Fields) {
    Truthy(Get(data, "name")) && Truthy(Get(data, "price"))
  }

  /** The upload's path as the value `imagePath` holds: `''` without a file. */
  function ImagePathValue(upload: Option<FileName>): (v: Value)
    ensures Truthy(v) <==> upload.Some?
  {
    if upload.Some? then Str(UploadPath(upload.value)) else Str("")
  }

  /** `imagePath || given || placeholder`: the upload wins, then a truthy
      `given`, then the placeholder, so a product always has a truthy image. */
  function ChosenImage(upload: Option<FileName>, given: Value): (v: Value)
    ensures upload.Some? ==> v == Str(UploadPath(upload.value))
    ensures upload.None? && Truthy(given) ==> v == given
    ensures upload.None? && !Truthy(given) ==> v == Str(Placeholder)
    ensures Truthy(v)
  {
    Or(Or(ImagePathValue(upload), given), Str(Placeholder))
  }

  /** `v || ''`. */
  function OrEmpty(v: Value): (r: Value)
    ensures Truthy(v) ==> r == v
    ensures !Truthy(v) ==> r == Str("")
    ensures r != Undefined
  {
    Or(v, Str(""))
  }

  /** The eight properties of a product record, in the order `addProduct`
      writes them; none of them is `undefined`. */
  function ProductFields(name: Value, category: Value, price: Value, description: Value,
                         image: Value, stock: Value, now: string): (m: Fields)
    requires name != Undefined && category != Undefined && price != Undefined
    requires description != Undefined && image != Undefined && stock != Undefined
    ensures m.Keys == {"name", "category", "price", "description", "image", "stock", "createdAt", "updatedAt"}
    ensures Defined(m)
    ensures m["name"] == name && m["category"] == category && m["price"] == price
    ensures m["description"] == description && m["image"] == image && m["stock"] == stock
    ensures m["createdAt"] == m["updatedAt"] == Str(now)
  {
    map["name" := name, "category" := category, "price" := price, "description" := description,
        "image" := image, "stock" := stock, "createdAt" := Str(now), "updatedAt" := Str(now)]
  }

  /** The record `addProduct` builds for id `id` from the validated payload. */
  function NewProduct(id: int, payload: Fields, upload: Option<FileName>, now: string): (r: Record)
    requires HasNameAndPrice(payload)
    ensures r.id == id && "id" !in r.fields && Defined(r.fields)
    ensures r.fields.Keys == {"name", "category", "price", "description", "image", "stock", "createdAt", "updatedAt"}
    ensures r.fields["name"] == payload["name"]
    ensures r.fields["category"] == OrEmpty(Get(payload, "category"))
    ensures r.fields["description"] == OrEmpty(Get(payload, "description"))
    ensures r.fields["price"] == Num(ParseFloat(payload["price"]).GetOr(0))
    ensures r.fields["image"] == ChosenImage(upload, Get(payload, "image"))
    ensures Truthy(Get(payload, "stock")) ==> r.fields["stock"] == NumberOrNull(ParseInt(payload["stock"]))
    ensures !Truthy(Get(payload, "stock")) ==> r.fields["stock"] == Num(0)
    ensures r.fields["createdAt"] == r.fields["updatedAt"] == Str(now)
  {
    var stock := if Truthy(Get(payload, "stock")) then NumberOrNull(ParseInt(payload["stock"])) else Num(0);
    Record(id, ProductFields(payload["name"], OrEmpty(Get(payload, "category")),
                            Num(ParseFloat(payload["price"]).GetOr(0)), OrEmpty(Get(payload, "description")),
                            ChosenImage(upload, Get(payload, "image")), stock, now))
  }

  /** `parseFloat(data.price) || old.price`: NaN and 0 fall back to the old price. */
  function MergedPrice(supplied: Value, previous: Value): (v: Value)
    ensures (exists n :: ParseFloat(supplied) == Some(n) && n != 0) ==> v == Num(ParseFloat(supplied).value)
    ensures ParseFloat(supplied) == None || ParseFloat(supplied) == Some(0) ==> v == previous
  {
    var p := ParseFloat(supplied);
    if p.Some? && p.value != 0 then Num(p.value) else previous
  }

  /** The record `updateProduct` stores in place of `previous` (whose id matched). */
  function MergeProduct(previous: Record, data: Fields, upload: Option<FileName>, now: string): (r: Record)
    ensures r.id == previous.id && "id" !in r.fields && Defined(r.fields)
    ensures Get(r.fields, "price") == MergedPrice(Get(data, "price"), Get(previous.fields, "price"))
    ensures Truthy(Get(data, "stock")) ==> Get(r.fields, "stock") == NumberOrNull(ParseInt(data["stock"]))
    ensures !Truthy(Get(data, "stock")) ==> Get(r.fields, "stock") == Get(previous.fields, "stock")
    ensures Get(r.fields, "image") == ChosenImage(upload, Or(Get(data, "image"), Get(previous.fields, "image")))
    ensures Get(r.fields, "updatedAt") == Str(now)
  {
    var spread := Spread(previous.fields, data) - {"id"};
    var stock := if Truthy(Get(data, "stock")) then NumberOrNull(ParseInt(data["stock"])) else Get(previous.fields, "stock");
    var image := ChosenImage(upload, Or(Get(data, "image"), Get(previous.fields, "image")));
    var priced := Put(spread, "price", MergedPrice(Get(data, "price"), Get(previous.fields, "price")));
    var stocked := Put(priced, "stock", stock);
    var pictured := Put(stocked, "image", image);
    var fields := Put(pictured, "updatedAt", Str(now));
    assert "id" !in fields by {
      assert Get(spread, "id") == Undefined;
      assert Get(fields, "id") == Get(pictured, "id") == Get(stocked, "id") == Get(priced, "id");
    }
    Record(previous.id, fields)
  }

  /** Every property other than the five `updateProduct` sets itself comes from
      the request body when the body has it, and from the stored record otherwise. */
  lemma MergeKeepsOtherFields(previous: Record, data: Fields, upload: Option<FileName>, now: string, k: string)
    requires k != "id" && k != "price" && k != "stock" && k != "image" && k != "updatedAt"
    ensures Get(MergeProduct(previous, data, upload, now).fields, k)
            == (if k in data then data[k] else Get(previous.fields, k))
  {
  }

  /** The old image `updateProduct` deletes once the array is written: a local
      (non-`http`, non-empty) string path, replaced by a new upload at a
      different path. */
  function StaleImage(previous: Value, upload: Option<FileName>): (p: Option<string>)
    ensures p.Some? <==> previous.Str? && previous.s != "" && !StartsWith(previous.s, "http")
                          && upload.Some? && previous.s != UploadPath(upload.value)
    ensures p.Some? ==> p == Some(previous.s)
  {
    if previous.Str? && previous.s != "" && !StartsWith(previous.s, "http") && upload.Some?
       && previous.s != UploadPath(upload.value)
    then Some(previous.s) else None
  }

  /** An update never deletes the file it has just stored, and never a remote image. */
  lemma StaleImageIsNeitherNewNorRemote(previous: Value, upload: Option<FileName>)
    ensures upload.Some? ==> StaleImage(previous, upload) != Some(UploadPath(upload.value))
    ensures previous.Str? && StartsWith(previous.s, "http") ==> StaleImage(previous, upload) == None
    ensures upload.None? ==> StaleImage(previous, upload) == None
  {
  }

  /** `deletedProduct.image && !deletedProduct.image.startsWith('http')` on a string image. */
  function LocalImage(image: Value): (p: Option<string>)
    ensures p.Some? <==> image.Str? && image.s != "" && !StartsWith(image.s, "http")
    ensures p.Some? ==> p.value == image.s
  {
    if image.Str? && image.s != "" && !StartsWith(image.s, "http") then Some(image.s) else None
  }

  /** The unlink calls for an optional path. */
  function UnlinkOf(p: Option<string>): (es: seq<Effect>)
    ensures p.None? ==> es == []
    ensures p.Some? ==> es == [Unlink(p.value)]
  {
    if p.Some? then [Unlink(p.value)] else []
  }

  function PathsOf(p: Option<string>): (ps: set<string>)
    ensures p.None? ==> ps == {}
    ensures p.Some? ==> ps == {p.value}
  {
    if p.Some? then {p.value} else {}
  }

  function UploadedPath(upload: Option<FileName>): (p: Option<string>)
    ensures upload.None? <==> p.None?
    ensures upload.Some? ==> p == Some(UploadPath(upload.value))
  {
    if upload.Some? then Some(UploadPath(upload.value)) else None
  }

  /** `/jpeg|jpg|png|gif/.test(s)`: an unanchored search. */
  predicate NamesImageType(s: string) {
    Contains(s, "jpeg") || Contains(s, "jpg") || Contains(s, "png") || Contains(s, "gif")
  }

  /** multer's `fileFilter`: the lower-cased extension of the original file name
      and the MIME type (as sent, not lower-cased) must both mention an image type. */
  predicate FileFilter(originalName: string, mimetype: string) {
    NamesImageType(Lower(Extname(originalName))) && NamesImageType(mimetype)
  }

  /** A file whose name has no extension (or is a dot-file such as `.png`) is
      refused whatever MIME type it claims. */
  lemma FileFilterNeedsExtension(originalName: string, mimetype: string)
    requires LastIndexOf(Basename(originalName), '.') <= 0
    ensures !FileFilter(originalName, mimetype)
  {
    assert Lower(Extname(originalName)) == "";
    forall part: string | part != []
      ensures !Contains("", part)
    {
      forall i | 0 <= i <= 0
        ensures !StartsWith(""[i..], part)
      {
      }
    }
  }

  /** No stored record keeps its id among its other properties. */
  predicate NoIdFields(records: seq<Record>) {
    forall i :: 0 <= i < |records| ==> "id" !in records[i].fields
  }

  lemma NoIdFieldsAppend(records: seq<Record>, r: Record)
    requires NoIdFields(records) && "id" !in r.fields
    ensures NoIdFields(records + [r])
  {
    var rs := records + [r];
    forall i | 0 <= i < |rs|
      ensures "id" !in rs[i].fields
    {
      if i < |records| {
        assert rs[i] == records[i];
      }
    }
  }

  /** The products file and the uploaded files, as the handlers see and change them. */
  class ProductStore {
    /** The array in `data/products.json`. */
    var products: seq<Record>
    /** The files present under `public/`, by public path. */
    var uploads: set<string>
    /** The `unlink` and `writeFile` calls made so far, oldest first. */
    var effects: seq<Effect>
    /** The paths whose `unlink` fails; the handlers log the error and carry on,
        and the file stays. */
    const failing: set<string>

    /** Every stored product is a record without a separate `id` property, and ids are unique. */
    ghost predicate Valid()
      reads this
    {
      UniqueIds(products) && NoIdFields(products)
    }

    constructor(products: seq<Record>, uploads: set<string>, failing: set<string>)
      ensures this.products == products && this.uploads == uploads && effects == []
      ensures this.failing == failing
    {
      this.products := products;
      this.uploads := uploads;
      this.failing := failing;
      effects := [];
    }

    /** `fs.unlink(path)` with its failure swallowed: the call is made, and the
        file goes unless its path is failing. */
    method RemoveFile(p: Option<string>)
      modifies this
      ensures products == old(products)
      ensures uploads == old(uploads) - (PathsOf(p) - failing)
      ensures p.Some? && p.value in failing ==> uploads == old(uploads)
      ensures effects == old(effects) + UnlinkOf(p)
    {
      if p.Some? {
        if p.value !in failing {
          uploads := uploads - {p.value};
        }
        effects := effects + [Unlink(p.value)];
      }
    }

    /** `fs.writeFile(dataPath, JSON.stringify(products))`. */
    method WriteProducts()
      modifies this
      ensures products == old(products) && uploads == old(uploads)
      ensures effects == old(effects) + [Write(products)]
    {
      effects := effects + [Write(products)];
    }

    /** `getProducts`: the whole array; the query string plays no part. */
    method GetProducts(query: map<string, string>) returns (resp: Response)
      ensures resp == Listing(products)
    {
      resp := Listing(products);
    }

    /** `getProduct`: the first record whose id is strictly `parseInt(id)`, or 404. */
    method GetProduct(id: string) returns (resp: Response)
      ensures resp == Lookup(products, ParseIntText(id))
    {
      var i := FindIndex(products, ParseIntText(id));
      if i == -1 {
        resp := NotFound;
      } else {
        resp := Found(products[i]);
      }
    }

    /** `addProduct`: validate, then push a new record with the next id and write. */
    method AddProduct(body: Fields, upload: Option<FileName>, now: string) returns (resp: Response)
      modifies this
      ensures var payload := AddPayload(body, upload);
        if !HasNameAndPrice(payload) then
          resp == BadRequest && products == old(products)
          && uploads == old(uploads) - (PathsOf(UploadedPath(upload)) - failing)
          && effects == old(effects) + UnlinkOf(UploadedPath(upload))
        else
          resp == Created(NewProduct(NextId(old(products)), payload, upload, now))
          && products == old(products) + [resp.record]
          && uploads == old(uploads)
          && effects == old(effects) + [Write(products)]
      ensures old(Valid()) ==> Valid()
    {
      var payload := AddPayload(body, upload);
      if !HasNameAndPrice(payload) {
        RemoveFile(UploadedPath(upload));
        resp := BadRequest;
        return;
      }
      var product := NewProduct(NextId(products), payload, upload, now);
      if old(Valid()) {
        AppendNextId(products, product);
        NoIdFieldsAppend(products, product);
      }
      products := products + [product];
      WriteProducts();
      resp := Created(product);
    }

    /** `updateProduct`: 404 before 400 (both delete the upload), then replace the
        matched record by the merge, write, and only then delete the stale image
        when it is still on disk. */
    method UpdateProduct(id: string, body: UpdateBody, now: string) returns (resp: Response)
      modifies this
      ensures var i := FindIndex(old(products), ParseIntText(id));
        i == -1 || !HasNameAndPrice(body.Data()) ==>
          resp == (if i == -1 then NotFound else BadRequest)
          && products == old(products)
          && uploads == old(uploads) - (PathsOf(UploadedPath(body.Upload())) - failing)
          && effects == old(effects) + UnlinkOf(UploadedPath(body.Upload()))
      ensures var i := FindIndex(old(products), ParseIntText(id));
        i != -1 && HasNameAndPrice(body.Data()) ==>
          var stale := StaleImage(Get(old(products)[i].fields, "image"), body.Upload());
          var removed := if stale.Some? && stale.value in old(uploads) then stale else None;
          resp == Updated(MergeProduct(old(products)[i], body.Data(), body.Upload(), now))
          && products == old(products)[i := resp.record]
          && uploads == old(uploads) - (PathsOf(removed) - failing)
          && effects == old(effects) + [Write(products)] + UnlinkOf(removed)
      ensures old(Valid()) ==> Valid()
    {
      var i := FindIndex(products, ParseIntText(id));
      var data := body.Data();
      var upload := UploadedPath(body.Upload());
      if i == -1 {
        RemoveFile(upload);
        resp := NotFound;
        return;
      }
      if !HasNameAndPrice(data) {
        RemoveFile(upload);
        resp := BadRequest;
        return;
      }
      var previous := products[i];
      var updated := MergeProduct(previous, data, body.Upload(), now);
      StoreUpdated(i, updated, StaleImage(Get(previous.fields, "image"), body.Upload()));
      resp := Updated(updated);
    }

    /** The tail of a successful update: assign in place, write, then delete the
        stale image if `fs.access` finds it. */
    method StoreUpdated(i: nat, updated: Record, stale: Option<string>)
      requires i < |products|
      modifies this
      ensures var removed := if stale.Some? && stale.value in old(uploads) then stale else None;
        products == old(products)[i := updated]
        && uploads == old(uploads) - (PathsOf(removed) - failing)
        && effects == old(effects) + [Write(products)] + UnlinkOf(removed)
      ensures old(Valid()) && updated.id == old(products)[i].id && "id" !in updated.fields ==> Valid()
    {
      if Valid() && updated.id == products[i].id {
        ReplaceKeepsUnique(products, i, updated);
      }
      products := products[i := updated];
      WriteProducts();
      if stale.Some? && stale.value in uploads {
        RemoveFile(stale);
      }
    }

    /** `deleteProduct`: 404, or a 500 when the image is truthy but not a string
        (it has no `startsWith`); otherwise unlink a local image first, then
        splice and write. */
    method DeleteProduct(id: string) returns (resp: Response)
      modifies this
      ensures var i := FindIndex(old(products), ParseIntText(id));
        if i == -1 then
          resp == NotFound && products == old(products) && uploads == old(uploads) && effects == old(effects)
        else
          var image := Get(old(products)[i].fields, "image");
          if Truthy(image) && !image.Str? then
            resp == ServerError && products == old(products) && uploads == old(uploads) && effects == old(effects)
          else
            resp == Deleted(old(products)[i])
            && products == RemoveAt(old(products), i)
            && uploads == old(uploads) - (PathsOf(LocalImage(image)) - failing)
            && effects == old(effects) + UnlinkOf(LocalImage(image)) + [Write(products)]
      ensures old(Valid()) ==> Valid()
    {
      var i := FindIndex(products, ParseIntText(id));
      if i == -1 {
        resp := NotFound;
        return;
      }
      var deleted := products[i];
      var image := Get(deleted.fields, "image");
      if Truthy(image) && !image.Str? {
        resp := ServerError;
        return;
      }
      RemoveFile(LocalImage(image));
      if old(Valid()) {
        RemoveKeepsUnique(products, i);
      }
      products := RemoveAt(products, i);
      WriteProducts();
      resp := Deleted(deleted);
    }
  }
}
