/** The orphaned-file sweeper (`scripts/cleanupOrphanedFiles.js`): collect the
    image identities the products array references into the module-level
    `usedFiles` set, then delete every listed local upload and every listed S3
    object that is not in it. The directory and the bucket are sets of names;
    which deletions fail is a parameter. */
module Sweeper {
  import opened Util
  import opened Text
  import opened Json
  import opened Store
  import ProductsApi

  /** What one product adds to `usedFiles`; `Throws` when its truthy image is
      not a string (it has no `startsWith`). */
  datatype Contribution = Adds(key: string) | Skips | Throws

  function ImageOf(product: Record): Value {
    Get(product.fields, "image")
  }

  /** A `/uploads/` path contributes its file name, an S3 URL itself, and any
      other image nothing. */
  function ContributionOf(image: Value): (c: Contribution)
    ensures c == Throws <==> Truthy(image) && !image.Str?
    ensures image.Str? && image.s != "" && StartsWith(image.s, "/uploads/") ==> c == Adds(Basename(image.s))
    ensures image.Str? && !StartsWith(image.s, "/uploads/") && Contains(image.s, "amazonaws.com") ==> c == Adds(image.s)
    ensures c.Adds? ==> image.Str? && (StartsWith(image.s, "/uploads/") || Contains(image.s, "amazonaws.com"))
  {
    if !Truthy(image) then Skips
    else if !image.Str? then Throws
    else if StartsWith(image.s, "/uploads/") then Adds(Basename(image.s))
    else if Contains(image.s, "amazonaws.com") then Adds(image.s)
    else Skips
  }

  /**
   * The products file's text: `JSON.parse(data || '[]')` reads an empty file as `[]`.
   * `NotAnArray` is any other text that is not a JSON array: `JSON.parse` throws on
   * malformed text, and for an object, string, number or `null` the call to
   * `products.forEach` throws, so both end in the same rethrow.
   */
  datatype ProductsText = EmptyText | JsonArray(products: seq<Record>) | NotAnArray
  {
    /** The products the `forEach` loop visits: none when the text is not an array. */
    function Products(): seq<Record> {
      if JsonArray? then products else []
    }
  }

  /** The keys `products.forEach` adds, when no product throws. */
  function UsedKeys(products: seq<Record>): set<string> {
    if products == [] then {}
    else
      var c := ContributionOf(ImageOf(products[|products| - 1]));
      UsedKeys(products[..|products| - 1]) + (if c.Adds? then {c.key} else {})
  }

  /** The index of the first product whose image throws, or the length. */
  function FirstThrow(products: seq<Record>): (k: nat)
    ensures k <= |products|
    ensures forall i :: 0 <= i < k ==> ContributionOf(ImageOf(products[i])) != Throws
    ensures k < |products| ==> ContributionOf(ImageOf(products[k])) == Throws
  {
    if products == [] then 0
    else if ContributionOf(ImageOf(products[0])) == Throws then 0
    else 1 + FirstThrow(products[1..])
  }

  /** How the used keys grow by one product. */
  lemma UsedStep(products: seq<Record>, i: nat)
    requires i < |products|
    ensures var c := ContributionOf(ImageOf(products[i]));
      UsedKeys(products[..i + 1]) == UsedKeys(products[..i]) + (if c.Adds? then {c.key} else {})
  {
    assert products[..i + 1][..i] == products[..i];
    assert products[..i + 1][i] == products[i];
  }

  /** The first throwing product is at `i` when none before it throws and it
      does (or `i` is the length). */
  lemma FirstThrowAt(products: seq<Record>, i: nat)
    requires i <= |products|
    requires forall j :: 0 <= j < i ==> ContributionOf(ImageOf(products[j])) != Throws
    requires i < |products| ==> ContributionOf(ImageOf(products[i])) == Throws
    ensures FirstThrow(products) == i
  {
  }

  /** A product whose image is an upload path keeps that upload's file in use. */
  lemma {:induction false} UploadedImageIsUsed(products: seq<Record>, j: nat, name: ProductsApi.FileName)
    requires j < |products| && ImageOf(products[j]) == Str(ProductsApi.UploadPath(name))
    ensures name in UsedKeys(products)
  {
    var n := |products|;
    if j == n - 1 {
      assert ContributionOf(ImageOf(products[j])) == Adds(name);
    } else {
      assert products[..n - 1][j] == products[j];
      UploadedImageIsUsed(products[..n - 1], j, name);
    }
  }

  /** The used set holds exactly the keys some product contributes: nothing else
      is ever protected from deletion, and nothing contributed is left out. */
  lemma {:induction false} UsedKeysExactly(products: seq<Record>, x: string)
    ensures x in UsedKeys(products) <==>
      exists j :: 0 <= j < |products| && ContributionOf(ImageOf(products[j])) == Adds(x)
  {
    if products != [] {
      var n := |products|;
      var init := products[..n - 1];
      UsedKeysExactly(init, x);
      if x in UsedKeys(products) {
        if x in UsedKeys(init) {
          var j :| 0 <= j < n - 1 && ContributionOf(ImageOf(init[j])) == Adds(x);
          assert init[j] == products[j];
        } else {
          assert ContributionOf(ImageOf(products[n - 1])) == Adds(x);
        }
      } else {
        forall j | 0 <= j < n
          ensures ContributionOf(ImageOf(products[j])) != Adds(x)
        {
          if j < n - 1 {
            assert init[j] == products[j];
          }
        }
      }
    }
  }

  /** A product whose image is an S3 URL keeps that whole URL in use, so
      `cleanS3Uploads` never deletes an object a product still shows. */
  lemma S3ImageIsUsed(products: seq<Record>, j: nat, url: string)
    requires j < |products| && ImageOf(products[j]) == Str(url)
    requires !StartsWith(url, "/uploads/") && Contains(url, "amazonaws.com")
    ensures url in UsedKeys(products)
  {
    assert ContributionOf(ImageOf(products[j])) == Adds(url);
    UsedKeysExactly(products, url);
  }

  /** The listed names not in `used`, in listing order: the deletions attempted. */
  function Orphans(listing: seq<string>, used: set<string>): seq<string> {
    if listing == [] then []
    else
      var last := listing[|listing| - 1];
      Orphans(listing[..|listing| - 1], used) + (if last !in used then [last] else [])
  }

  /** The orphans whose deletion succeeds. */
  function Swept(listing: seq<string>, used: set<string>, failing: set<string>): seq<string> {
    if listing == [] then []
    else
      var last := listing[|listing| - 1];
      Swept(listing[..|listing| - 1], used, failing) + (if last !in used && last !in failing then [last] else [])
  }

  /** The attempted deletions are exactly the listed names not in use, each from the listing. */
  lemma {:induction false} OrphansAreUnused(listing: seq<string>, used: set<string>)
    ensures |Orphans(listing, used)| <= |listing|
    ensures forall x :: x in Orphans(listing, used) <==> x in listing && x !in used
  {
    if listing != [] {
      var init := listing[..|listing| - 1];
      OrphansAreUnused(init, used);
      assert listing == init + [listing[|listing| - 1]];
    }
  }
  /** Every deletion the sweep attempts after a full scan is of a name no product
      contributes: an image still in use is never deleted. */
  lemma OrphanIsUnreferenced(listing: seq<string>, products: seq<Record>, x: string)
    requires x in Orphans(listing, UsedKeys(products))
    ensures x in listing
    ensures forall j :: 0 <= j < |products| ==> ContributionOf(ImageOf(products[j])) != Adds(x)
  {
    OrphansAreUnused(listing, UsedKeys(products));
    UsedKeysExactly(products, x);
  }


  /** The successful deletions are exactly the listed names neither in use nor failing. */
  lemma {:induction false} SweptAreDeleted(listing: seq<string>, used: set<string>, failing: set<string>)
    ensures |Swept(listing, used, failing)| <= |listing|
    ensures forall x :: x in Swept(listing, used, failing) <==> x in listing && x !in used && x !in failing
  {
    if listing != [] {
      var init := listing[..|listing| - 1];
      SweptAreDeleted(init, used, failing);
      assert listing == init + [listing[|listing| - 1]];
    }
  }

  function Elems(s: seq<string>): set<string> {
    set x | x in s
  }

  /** How the attempted and the successful deletions grow by one listed name. */
  lemma SweepStep(listing: seq<string>, i: nat, used: set<string>, failing: set<string>)
    requires i < |listing|
    ensures var x := listing[i];
      Orphans(listing[..i + 1], used) == Orphans(listing[..i], used) + (if x !in used then [x] else [])
      && Swept(listing[..i + 1], used, failing)
         == Swept(listing[..i], used, failing) + (if x !in used && x !in failing then [x] else [])
      && Elems(Swept(listing[..i + 1], used, failing))
         == Elems(Swept(listing[..i], used, failing)) + (if x !in used && x !in failing then {x} else {})
  {
    assert listing[..i + 1][..i] == listing[..i];
    assert listing[..i + 1][i] == listing[i];
  }

  /** Counting attempts never undercounts successes, and one failed deletion of
      an orphan makes it overcount. */
  lemma {:induction false} AttemptsCoverSuccesses(listing: seq<string>, used: set<string>, failing: set<string>)
    ensures |Swept(listing, used, failing)| <= |Orphans(listing, used)|
    ensures (exists i :: 0 <= i < |listing| && listing[i] !in used && listing[i] in failing) ==>
            |Swept(listing, used, failing)| < |Orphans(listing, used)|
  {
    if listing != [] {
      var n := |listing|;
      var init := listing[..n - 1];
      AttemptsCoverSuccesses(init, used, failing);
      if exists i :: 0 <= i < n && listing[i] !in used && listing[i] in failing {
        var i :| 0 <= i < n && listing[i] !in used && listing[i] in failing;
        if i < n - 1 {
          assert init[i] == listing[i];
        }
      }
    }
  }

  /** The outcome of `runCleanup`: the two counts, or `process.exit(1)`. */
  datatype CleanupOutcome = Exited | Cleaned(local: nat, s3: nat)

  /** An environment variable is set when it is present and non-empty. */
  predicate EnvSet(v: Option<string>) {
    v.Some? && v.value != ""
  }

  /** The sweeper's state across runs in one process. */
  class OrphanSweeper {
    /** The module-level `usedFiles`: only ever added to. */
    var usedFiles: set<string>
    /** The names in `public/uploads`. */
    var localFiles: set<string>
    /** The URLs of the objects in the bucket. */
    var bucket: set<string>
    /** The local unlinks and S3 deletes attempted, oldest first. */
    var localAttempts: seq<string>
    var s3Attempts: seq<string>

    constructor(localFiles: set<string>, bucket: set<string>)
      ensures usedFiles == {} && this.localFiles == localFiles && this.bucket == bucket
      ensures localAttempts == [] && s3Attempts == []
    {
      usedFiles := {};
      this.localFiles := localFiles;
      this.bucket := bucket;
      localAttempts := [];
      s3Attempts := [];
    }

    /** `findUsedFiles`: add each product's contribution until one throws;
        what was added before the throw stays. */
    method FindUsedFiles(text: ProductsText) returns (ok: bool)
      modifies this
      ensures var ps := text.Products();
        usedFiles == old(usedFiles) + UsedKeys(ps[..FirstThrow(ps)])
        && (ok <==> !text.NotAnArray? && FirstThrow(ps) == |ps|)
      ensures localFiles == old(localFiles) && bucket == old(bucket)
      ensures localAttempts == old(localAttempts) && s3Attempts == old(s3Attempts)
    {
      if text.NotAnArray? {
        return false;
      }
      var ps := text.Products();
      var i := 0;
      while i < |ps|
        invariant 0 <= i <= |ps|
        invariant forall j :: 0 <= j < i ==> ContributionOf(ImageOf(ps[j])) != Throws
        invariant usedFiles == old(usedFiles) + UsedKeys(ps[..i])
        invariant localFiles == old(localFiles) && bucket == old(bucket)
        invariant localAttempts == old(localAttempts) && s3Attempts == old(s3Attempts)
      {
        UsedStep(ps, i);
        var c := ContributionOf(ImageOf(ps[i]));
        if c == Throws {
          FirstThrowAt(ps, i);
          return false;
        }
        if c.Adds? {
          usedFiles := usedFiles + {c.key};
        }
        i := i + 1;
      }
      assert ps[..i] == ps;
      FirstThrowAt(ps, i);
      ok := true;
    }

    /** `cleanLocalUploads`: try to unlink every listed name not in use and count
        the unlinks that succeed. The listing is what `readdir` returns, so every
        name in it is a file of the folder. */
    method CleanLocalUploads(listing: seq<string>, failing: set<string>) returns (count: nat)
      requires Elems(listing) <= localFiles
      modifies this
      ensures localAttempts == old(localAttempts) + Orphans(listing, usedFiles)
      ensures count == |Swept(listing, usedFiles, failing)| && count <= |listing|
      ensures localFiles == old(localFiles) - Elems(Swept(listing, usedFiles, failing))
      ensures usedFiles == old(usedFiles) && bucket == old(bucket) && s3Attempts == old(s3Attempts)
    {
      count := 0;
      var i := 0;
      while i < |listing|
        invariant 0 <= i <= |listing|
        invariant localAttempts == old(localAttempts) + Orphans(listing[..i], usedFiles)
        invariant count == |Swept(listing[..i], usedFiles, failing)|
        invariant localFiles == old(localFiles) - Elems(Swept(listing[..i], usedFiles, failing))
        invariant usedFiles == old(usedFiles) && bucket == old(bucket) && s3Attempts == old(s3Attempts)
      {
        var file := listing[i];
        SweepStep(listing, i, usedFiles, failing);
        if file !in usedFiles {
          localAttempts := localAttempts + [file];
          if file !in failing {
            localFiles := localFiles - {file};
            count := count + 1;
          }
        }
        i := i + 1;
      }
      assert listing[..i] == listing;
      SweptAreDeleted(listing, usedFiles, failing);
    }

    /** `cleanS3Uploads`: delete every listed URL not in use; the count goes up
        whenever `deleteFile` returns, which it does even when it fails. The
        listing is what `listFiles` returns, so every URL in it is in the bucket. */
    method CleanS3Uploads(listing: seq<string>, failing: set<string>) returns (count: nat)
      requires Elems(listing) <= bucket
      modifies this
      ensures s3Attempts == old(s3Attempts) + Orphans(listing, usedFiles)
      ensures count == |Orphans(listing, usedFiles)|
      ensures bucket == old(bucket) - Elems(Swept(listing, usedFiles, failing))
      ensures usedFiles == old(usedFiles) && localFiles == old(localFiles) && localAttempts == old(localAttempts)
    {
      count := 0;
      var i := 0;
      while i < |listing|
        invariant 0 <= i <= |listing|
        invariant s3Attempts == old(s3Attempts) + Orphans(listing[..i], usedFiles)
        invariant count == |Orphans(listing[..i], usedFiles)|
        invariant bucket == old(bucket) - Elems(Swept(listing[..i], usedFiles, failing))
        invariant usedFiles == old(usedFiles) && localFiles == old(localFiles) && localAttempts == old(localAttempts)
      {
        var url := listing[i];
        SweepStep(listing, i, usedFiles, failing);
        if url !in usedFiles {
          s3Attempts := s3Attempts + [url];
          var removed := DeleteObject(url, failing);
          count := count + 1;
        }
        i := i + 1;
      }
      assert listing[..i] == listing;
    }

    /** `cleanS3Uploads` counting only the deletions `deleteFile` reports as done. */
    method CleanS3UploadsCounted(listing: seq<string>, failing: set<string>) returns (count: nat)
      requires Elems(listing) <= bucket
      modifies this
      ensures s3Attempts == old(s3Attempts) + Orphans(listing, usedFiles)
      ensures count == |Swept(listing, usedFiles, failing)|
      ensures bucket == old(bucket) - Elems(Swept(listing, usedFiles, failing))
      ensures usedFiles == old(usedFiles) && localFiles == old(localFiles) && localAttempts == old(localAttempts)
    {
      count := 0;
      var i := 0;
      while i < |listing|
        invariant 0 <= i <= |listing|
        invariant s3Attempts == old(s3Attempts) + Orphans(listing[..i], usedFiles)
        invariant count == |Swept(listing[..i], usedFiles, failing)|
        invariant bucket == old(bucket) - Elems(Swept(listing[..i], usedFiles, failing))
        invariant usedFiles == old(usedFiles) && localFiles == old(localFiles) && localAttempts == old(localAttempts)
      {
        var url := listing[i];
        SweepStep(listing, i, usedFiles, failing);
        if url !in usedFiles {
          s3Attempts := s3Attempts + [url];
          var removed := DeleteObject(url, failing);
          if removed {
            count := count + 1;
          }
        }
        i := i + 1;
      }
      assert listing[..i] == listing;
    }

    /** `fileStorage.deleteFile(url)`: `true` once the object is gone, `false`
        (not an exception) when the delete fails. */
    method DeleteObject(url: string, failing: set<string>) returns (removed: bool)
      modifies this
      ensures removed <==> url !in failing
      ensures bucket == if removed then old(bucket) - {url} else old(bucket)
      ensures usedFiles == old(usedFiles) && localFiles == old(localFiles)
      ensures localAttempts == old(localAttempts) && s3Attempts == old(s3Attempts)
    {
      removed := url !in failing;
      if removed {
        bucket := bucket - {url};
      }
    }

    /** `runCleanup`: collect, sweep the uploads directory, and sweep the bucket
        only when both AWS credentials are set; a throwing product ends the
        process before anything is deleted. */
    method RunCleanup(text: ProductsText, localListing: seq<string>, localFailing: set<string>,
                      accessKeyId: Option<string>, secretAccessKey: Option<string>,
                      s3Listing: seq<string>, s3Failing: set<string>) returns (outcome: CleanupOutcome)
      requires Elems(localListing) <= localFiles && Elems(s3Listing) <= bucket
      modifies this
      ensures var ps := text.Products();
        usedFiles == old(usedFiles) + UsedKeys(ps[..FirstThrow(ps)])
        && (outcome == Exited <==> text.NotAnArray? || FirstThrow(ps) < |ps|)
      ensures outcome == Exited ==> localFiles == old(localFiles) && bucket == old(bucket)
      ensures outcome.Cleaned? ==>
        outcome.local == |Swept(localListing, usedFiles, localFailing)|
        && localFiles == old(localFiles) - Elems(Swept(localListing, usedFiles, localFailing))
      ensures outcome.Cleaned? && EnvSet(accessKeyId) && EnvSet(secretAccessKey) ==>
        outcome.s3 == |Orphans(s3Listing, usedFiles)|
        && bucket == old(bucket) - Elems(Swept(s3Listing, usedFiles, s3Failing))
      ensures outcome.Cleaned? && !(EnvSet(accessKeyId) && EnvSet(secretAccessKey)) ==>
        outcome.s3 == 0 && bucket == old(bucket)
    {
      var ok := FindUsedFiles(text);
      if !ok {
        return Exited;
      }
      var local := CleanLocalUploads(localListing, localFailing);
      var s3 := 0;
      if EnvSet(accessKeyId) && EnvSet(secretAccessKey) {
        s3 := CleanS3Uploads(s3Listing, s3Failing);
      }
      outcome := Cleaned(local, s3);
    }
  }
}
