/** What every collection handler shares: a record of the JSON array, the
    handlers' responses, the strict-equality lookup by id, the `max + 1` id
    rule and the `splice` that deletes one element. */
module Store {
  import opened Util
  import opened Json

  /** One element of a collection file: its integer `id` and its other properties. */
  datatype Record = Record(id: int, fields: Fields)

  /** A handler's reply: the status code and, on success, the record or array it sends. */
  datatype Response =
    | Listing(records: seq<Record>)
    | Found(record: Record)
    | Created(record: Record)
    | Updated(record: Record)
    | Deleted(record: Record)
    | BadRequest
    | NotFound
    | MethodNotAllowed
    | ServerError
  {
    function Status(): int {
      match this
      case Listing(_) => 200
      case Found(_) => 200
      case Created(_) => 201
      case Updated(_) => 200
      case Deleted(_) => 200
      case BadRequest => 400
      case NotFound => 404
      case MethodNotAllowed => 405
      case ServerError => 500
    }
  }

  /** `r.id === parseInt(id)`: a NaN key matches nothing. */
  predicate Matches(r: Record, key: Option<int>) {
    key.Some? && r.id == key.value
  }

  /** `records.findIndex(r => r.id === parseInt(id))`. */
  function FindIndex(records: seq<Record>, key: Option<int>): (i: int)
    ensures -1 <= i < |records|
    ensures i == -1 <==> forall j :: 0 <= j < |records| ==> !Matches(records[j], key)
    ensures 0 <= i ==> Matches(records[i], key)
    ensures forall j :: 0 <= j < i ==> !Matches(records[j], key)
  {
    if records == [] then -1
    else if Matches(records[0], key) then 0
    else
      var i := FindIndex(records[1..], key);
      if i == -1 then -1 else i + 1
  }

  /** `Math.max(...records.map(r => r.id))`. */
  function MaxId(records: seq<Record>): (m: int)
    requires records != []
    ensures forall j :: 0 <= j < |records| ==> records[j].id <= m
    ensures exists j :: 0 <= j < |records| && records[j].id == m
  {
    if |records| == 1 then records[0].id
    else
      var m := MaxId(records[1..]);
      assert forall j :: 1 <= j < |records| ==> records[j] == records[1..][j - 1];
      if records[0].id >= m then records[0].id else m
  }

  /** No key is listed twice. */
  predicate DistinctKeys(ks: seq<string>) {
    forall i, j :: 0 <= i < j < |ks| ==> ks[i] != ks[j]
  }

  /** A new record's object literal: five given properties, then `createdAt` and
      `updatedAt` both set to the same `new Date().toISOString()`. */
  function StampedFields(k1: string, v1: Value, k2: string, v2: Value, k3: string, v3: Value,
                         k4: string, v4: Value, k5: string, v5: Value, now: string): (m: Fields)
    requires DistinctKeys([k1, k2, k3, k4, k5, "createdAt", "updatedAt"])
    requires v1 != Undefined && v2 != Undefined && v3 != Undefined && v4 != Undefined && v5 != Undefined
    ensures m.Keys == {k1, k2, k3, k4, k5, "createdAt", "updatedAt"}
    ensures Defined(m)
    ensures m[k1] == v1 && m[k2] == v2 && m[k3] == v3 && m[k4] == v4 && m[k5] == v5
    ensures m["createdAt"] == m["updatedAt"] == Str(now)
  {
    var ks := [k1, k2, k3, k4, k5, "createdAt", "updatedAt"];
    assert ks[0] != ks[1] && ks[0] != ks[2] && ks[0] != ks[3] && ks[0] != ks[4] && ks[0] != ks[5] && ks[0] != ks[6];
    assert ks[1] != ks[2] && ks[1] != ks[3] && ks[1] != ks[4] && ks[1] != ks[5] && ks[1] != ks[6];
    assert ks[2] != ks[3] && ks[2] != ks[4] && ks[2] != ks[5] && ks[2] != ks[6];
    assert ks[3] != ks[4] && ks[3] != ks[5] && ks[3] != ks[6];
    assert ks[4] != ks[5] && ks[4] != ks[6];
    map[k1 := v1, k2 := v2, k3 := v3, k4 := v4, k5 := v5, "createdAt" := Str(now), "updatedAt" := Str(now)]
  }

  /** The id an add assigns: 1 for an empty array, else the largest id plus one. */
  function NextId(records: seq<Record>): int {
    if records == [] then 1 else MaxId(records) + 1
  }

  /** The new id differs from every id in the array, and it is the least integer
      above all of them. */
  lemma NextIdFresh(records: seq<Record>)
    ensures forall j :: 0 <= j < |records| ==> records[j].id < NextId(records)
    ensures records != [] ==> exists j :: 0 <= j < |records| && records[j].id == NextId(records) - 1
  {
    if records != [] {
      var m := MaxId(records);
      var j :| 0 <= j < |records| && records[j].id == m;
      assert records[j].id == NextId(records) - 1;
    }
  }

  predicate UniqueIds(records: seq<Record>) {
    forall i, j :: 0 <= i < j < |records| ==> records[i].id != records[j].id
  }

  /** `records.splice(i, 1)`. */
  function RemoveAt(records: seq<Record>, i: nat): (r: seq<Record>)
    requires i < |records|
    ensures |r| == |records| - 1
    ensures forall j :: 0 <= j < i ==> r[j] == records[j]
    ensures forall j :: i <= j < |r| ==> r[j] == records[j + 1]
  {
    records[..i] + records[i + 1..]
  }

  /** Appending a record carrying the next id keeps the ids unique, and a lookup
      by that id then finds exactly the appended record. */
  lemma AppendNextId(records: seq<Record>, r: Record)
    requires UniqueIds(records)
    requires r.id == NextId(records)
    ensures UniqueIds(records + [r])
    ensures FindIndex(records + [r], Some(r.id)) == |records|
  {
    NextIdFresh(records);
    var rs := records + [r];
    forall a, b | 0 <= a < b < |rs|
      ensures rs[a].id != rs[b].id
    {
      assert rs[a] == records[a];
      if b < |records| {
        assert rs[b] == records[b];
      }
    }
    assert Matches(rs[|records|], Some(r.id));
  }

  /** Replacing a record by one with the same id keeps the ids unique. */
  lemma ReplaceKeepsUnique(records: seq<Record>, i: nat, r: Record)
    requires UniqueIds(records)
    requires i < |records| && r.id == records[i].id
    ensures UniqueIds(records[i := r])
  {
  }

  /** Removing a record keeps the ids unique, and with unique ids the removed id
      is no longer found. */
  lemma RemoveKeepsUnique(records: seq<Record>, i: nat)
    requires UniqueIds(records)
    requires i < |records|
    ensures UniqueIds(RemoveAt(records, i))
    ensures FindIndex(RemoveAt(records, i), Some(records[i].id)) == -1
  {
    var r := RemoveAt(records, i);
    forall a, b | 0 <= a < b < |r|
      ensures r[a].id != r[b].id
    {
      var a' := if a < i then a else a + 1;
      var b' := if b < i then b else b + 1;
      assert r[a] == records[a'] && r[b] == records[b'];
    }
    forall j | 0 <= j < |r|
      ensures !Matches(r[j], Some(records[i].id))
    {
      var j' := if j < i then j else j + 1;
      assert r[j] == records[j'];
    }
  }

  /** `records.find(r => r.id === parseInt(id))` answered as a handler does:
      the first match, or 404. */
  function Lookup(records: seq<Record>, key: Option<int>): (resp: Response)
    ensures resp.Found? || resp.NotFound?
    ensures resp.NotFound? <==> forall j :: 0 <= j < |records| ==> !Matches(records[j], key)
    ensures resp.Found? ==> exists i :: 0 <= i < |records| && resp.record == records[i] && Matches(records[i], key)
                                        && forall j :: 0 <= j < i ==> !Matches(records[j], key)
  {
    var i := FindIndex(records, key);
    if i == -1 then NotFound else Found(records[i])
  }

  /** `{...previous, ...body, id: parseInt(id), updatedAt: now}` for a record
      whose id matched: the payload overwrites every property except `id` and
      `updatedAt`, and properties it sets to `undefined` disappear. */
  function Merge(previous: Record, body: Fields, now: string): (r: Record)
    ensures r.id == previous.id && "id" !in r.fields && Defined(r.fields)
    ensures forall k :: k != "id" && k != "updatedAt" ==>
      Get(r.fields, k) == (if k in body then body[k] else Get(previous.fields, k))
    ensures Get(r.fields, "updatedAt") == Str(now)
  {
    Record(previous.id, Put(Spread(previous.fields, body) - {"id"}, "updatedAt", Str(now)))
  }

  /** A JSON collection file as a handler loads it, changes it in memory and
      writes it back whole. */
  class Collection {
    /** The array currently in the file. */
    var records: seq<Record>
    /** Every array written back, oldest first. */
    var saved: seq<seq<Record>>

    constructor(records: seq<Record>)
      ensures this.records == records && saved == []
    {
      this.records := records;
      saved := [];
    }

    /** `fs.writeFile(dataPath, JSON.stringify(records))`. */
    method Save()
      modifies this
      ensures records == old(records) && saved == old(saved) + [records]
    {
      saved := saved + [records];
    }

    /** The single-record GET: strict match on `parseInt(id)`. */
    method Get(id: string) returns (resp: Response)
      ensures resp == Lookup(records, ParseIntText(id))
    {
      var i := FindIndex(records, ParseIntText(id));
      if i == -1 {
        resp := NotFound;
      } else {
        resp := Found(records[i]);
      }
    }

    /** `records.push(r)` and write; with `r` carrying the next id, ids stay unique. */
    method Push(r: Record)
      modifies this
      ensures records == old(records) + [r] && saved == old(saved) + [records]
      ensures old(UniqueIds(records)) && r.id == NextId(old(records)) ==> UniqueIds(records)
    {
      if UniqueIds(records) && r.id == NextId(records) {
        AppendNextId(records, r);
      }
      records := records + [r];
      Save();
    }

    /** `records[i] = r` and write; with the id unchanged, ids stay unique. */
    method Assign(i: nat, r: Record)
      requires i < |records|
      modifies this
      ensures records == old(records)[i := r] && saved == old(saved) + [records]
      ensures old(UniqueIds(records)) && r.id == old(records)[i].id ==> UniqueIds(records)
    {
      if UniqueIds(records) && r.id == records[i].id {
        ReplaceKeepsUnique(records, i, r);
      }
      records := records[i := r];
      Save();
    }

    /** The DELETE handler: 404 with nothing written, or splice out the first
        match, write, and return it. */
    method Delete(id: string) returns (resp: Response)
      modifies this
      ensures var i := FindIndex(old(records), ParseIntText(id));
        if i == -1 then
          resp == NotFound && records == old(records) && saved == old(saved)
        else
          resp == Deleted(old(records)[i]) && records == RemoveAt(old(records), i)
          && saved == old(saved) + [records]
      ensures old(UniqueIds(records)) ==> UniqueIds(records)
    {
      var i := FindIndex(records, ParseIntText(id));
      if i == -1 {
        return NotFound;
      }
      var deleted := records[i];
      if UniqueIds(records) {
        RemoveKeepsUnique(records, i);
      }
      records := RemoveAt(records, i);
      Save();
      resp := Deleted(deleted);
    }
  }
}
