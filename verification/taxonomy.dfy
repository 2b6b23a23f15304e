/**
 * Categories and resource types: two registries with the same handlers and
 * the same schema (a unique trimmed name of at most 50 UTF-16 code units and a
 * trimmed description of at most 500), differing only in their error codes
 * and in the category's free-form `iconUrl`, which resource types lack.
 */
module Taxonomy {
  import opened Wrappers
  import opened Text
  import opened Api

  datatype Kind = CategoryKind | ResourceTypeKind

  datatype Entry = Entry(name: string, description: string, iconUrl: Option<string>)

  /** Documents keyed by their id. */
  type Registry = map<string, Entry>

  const MaxNameLength: nat := 50
  const MaxDescriptionLength: nat := 500

  function DuplicateCode(k: Kind): ErrorCode {
    if k == CategoryKind then DuplicateCategory else DuplicateResourceType
  }

  function NotFoundCode(k: Kind): ErrorCode {
    if k == CategoryKind then CategoryNotFound else ResourceTypeNotFound
  }

  function CreateErrorCode(k: Kind): ErrorCode {
    if k == CategoryKind then CategoryCreateError else ResourceTypeCreateError
  }

  function UpdateErrorCode(k: Kind): ErrorCode {
    if k == CategoryKind then CategoryUpdateError else ResourceTypeUpdateError
  }

  /** A name the schema accepts once trimmed: required and at most 50 UTF-16 code units. */
  predicate ValidName(name: string) {
    IsTrimmed(name) && 0 < JsLength(name) <= MaxNameLength
  }

  predicate ValidDescription(description: string) {
    IsTrimmed(description) && 0 < JsLength(description) <= MaxDescriptionLength
  }

  /** What the schema guarantees of a stored entry; resource types carry no icon. */
  predicate ValidEntry(k: Kind, e: Entry) {
    ValidName(e.name) && ValidDescription(e.description) && (k == ResourceTypeKind ==> e.iconUrl.None?)
  }

  /** The unique index on `name`. */
  predicate NamesDistinct(reg: Registry) {
    forall a, b :: a in reg && b in reg && a != b ==> reg[a].name != reg[b].name
  }

  predicate ValidRegistry(k: Kind, reg: Registry) {
    (forall id :: id in reg ==> ValidEntry(k, reg[id])) && NamesDistinct(reg)
  }

  /** `findOne({ name, _id: { $ne: except } })` finds a document. */
  predicate NameTaken(reg: Registry, name: string, except: Option<string>) {
    exists id :: id in reg && Some(id) != except && reg[id].name == name
  }

  /** The request body; `iconUrl` is read only for categories. */
  datatype Body = Body(name: Option<string>, description: Option<string>, iconUrl: Option<string>)

  /** getById: the entry or not found. */
  function GetById(k: Kind, reg: Registry, id: string): (r: Reply<Entry>)
    ensures id in reg <==> r.Ok?
    ensures r.Ok? ==> r == Ok(200, reg[id])
    ensures r.Err? ==> r == Err(404, NotFoundCode(k))
  {
    if id in reg then Ok(200, reg[id]) else Err(404, NotFoundCode(k))
  }

  /** The entry `create` would insert: trimmed fields, and an icon only for a category. */
  function Candidate(k: Kind, b: Body): Entry
    requires b.name.Some? && b.description.Some?
  {
    Entry(Trim(b.name.value), Trim(b.description.value), if k == CategoryKind then b.iconUrl else None)
  }

  /**
   * create: both fields truthy, the trimmed name not taken, then the schema's
   * validators and the insert itself, whose failures end in the catch.
   */
  function Create(k: Kind, reg: Registry, b: Body, newId: string): (res: (Reply<Entry>, Registry))
    ensures !Truthy(b.name) || !Truthy(b.description) ==> res == (Err(400, MissingFields), reg)
    ensures Truthy(b.name) && Truthy(b.description) && NameTaken(reg, Trim(b.name.value), None) ==>
      res == (Err(400, DuplicateCode(k)), reg)
    ensures Truthy(b.name) && Truthy(b.description) && !NameTaken(reg, Trim(b.name.value), None) ==>
      && (res.0.Ok? <==> ValidEntry(k, Candidate(k, b)) && newId !in reg)
      && (res.0.Err? ==> res.0 == Err(500, CreateErrorCode(k)))
    ensures res.0.Err? ==> res.1 == reg
    ensures res.0.Ok? ==>
      && b.name.Some? && b.description.Some?
      && newId !in reg
      && res.0 == Ok(201, Candidate(k, b))
      && res.1 == reg[newId := res.0.data]
      && ValidEntry(k, res.0.data)
      && !NameTaken(reg, res.0.data.name, None)
  {
    if !Truthy(b.name) || !Truthy(b.description) then (Err(400, MissingFields), reg)
    else if NameTaken(reg, Trim(b.name.value), None) then (Err(400, DuplicateCode(k)), reg)
    else
      var e := Candidate(k, b);
      if !ValidEntry(k, e) || newId in reg then (Err(500, CreateErrorCode(k)), reg)
      else (Ok(201, e), reg[newId := e])
  }

  /** The update validators on the supplied fields (`None` is not part of the update). */
  predicate UpdateFieldsValid(b: Body) {
    && (b.name.Some? ==> ValidName(Trim(b.name.value)))
    && (b.description.Some? ==> ValidDescription(Trim(b.description.value)))
  }

  /** The entry after the update: supplied fields replace, the rest stay. */
  function Patched(k: Kind, e: Entry, b: Body): Entry {
    Entry(if b.name.Some? then Trim(b.name.value) else e.name,
          if b.description.Some? then Trim(b.description.value) else e.description,
          if k == CategoryKind && b.iconUrl.Some? then b.iconUrl else e.iconUrl)
  }

  /**
   * update: one of name or description truthy, a truthy name not taken by
   * another document, the validators on what is supplied, then the lookup.
   */
  function Update(k: Kind, reg: Registry, id: string, b: Body): (res: (Reply<Entry>, Registry))
    ensures !Truthy(b.name) && !Truthy(b.description) ==> res == (Err(400, MissingFields), reg)
    ensures (Truthy(b.name) || Truthy(b.description)) && Truthy(b.name) && NameTaken(reg, Trim(b.name.value), Some(id)) ==>
      res == (Err(400, DuplicateCode(k)), reg)
    ensures res.0.Ok? <==>
      && (Truthy(b.name) || Truthy(b.description))
      && !(Truthy(b.name) && NameTaken(reg, Trim(b.name.value), Some(id)))
      && UpdateFieldsValid(b) && id in reg
    ensures res.0.Err? ==> res.1 == reg
    ensures res.0 == Err(404, NotFoundCode(k)) ==> id !in reg
    ensures (Truthy(b.name) || Truthy(b.description))
            && !(Truthy(b.name) && NameTaken(reg, Trim(b.name.value), Some(id))) ==>
      && (!UpdateFieldsValid(b) ==> res == (Err(500, UpdateErrorCode(k)), reg))
      && (UpdateFieldsValid(b) && id !in reg ==> res == (Err(404, NotFoundCode(k)), reg))
    ensures res.0.Ok? ==>
      && id in reg
      && res.0.status == 200
      && res.1 == reg[id := res.0.data]
      && (b.name.Some? ==> res.0.data.name == Trim(b.name.value) && !NameTaken(reg, res.0.data.name, Some(id)))
      && (b.name.None? ==> res.0.data.name == reg[id].name)
      && (b.description.Some? ==> res.0.data.description == Trim(b.description.value))
      && (b.description.None? ==> res.0.data.description == reg[id].description)
      && (k == ResourceTypeKind || b.iconUrl.None? ==> res.0.data.iconUrl == reg[id].iconUrl)
  {
    if !Truthy(b.name) && !Truthy(b.description) then (Err(400, MissingFields), reg)
    else if Truthy(b.name) && NameTaken(reg, Trim(b.name.value), Some(id)) then (Err(400, DuplicateCode(k)), reg)
    else if !UpdateFieldsValid(b) then (Err(500, UpdateErrorCode(k)), reg)
    else if id !in reg then (Err(404, NotFoundCode(k)), reg)
    else
      var e := Patched(k, reg[id], b);
      (Ok(200, e), reg[id := e])
  }

  /** delete: removes the entry or reports it missing. */
  function Delete(k: Kind, reg: Registry, id: string): (res: (Reply<()>, Registry))
    ensures id !in reg <==> res.0.Err?
    ensures res.0.Err? ==> res == (Err(404, NotFoundCode(k)), reg)
    ensures res.0.Ok? ==> res.1.Keys == reg.Keys - {id} && forall x :: x in res.1 ==> res.1[x] == reg[x]
  {
    if id !in reg then (Err(404, NotFoundCode(k)), reg) else (Ok(200, ()), reg - {id})
  }

  /** A new entry whose name nobody holds keeps the names unique. */
  lemma AddKeepsNamesDistinct(reg: Registry, id: string, e: Entry, except: Option<string>)
    requires NamesDistinct(reg) && !NameTaken(reg, e.name, except)
    requires except.None? || except == Some(id)
    ensures NamesDistinct(reg[id := e])
  {
    var reg1 := reg[id := e];
    forall a, b | a in reg1 && b in reg1 && a != b ensures reg1[a].name != reg1[b].name {
      if a == id {
        assert Some(b) != except;
      } else if b == id {
        assert Some(a) != except;
      }
    }
  }

  /** Creating keeps the registry valid and the names unique. */
  lemma CreatePreservesValidRegistry(k: Kind, reg: Registry, b: Body, newId: string)
    requires ValidRegistry(k, reg)
    ensures ValidRegistry(k, Create(k, reg, b, newId).1)
  {
    var c := Create(k, reg, b, newId);
    if c.0.Ok? {
      AddKeepsNamesDistinct(reg, newId, c.0.data, None);
    }
  }

  /** Updating keeps the registry valid and the names unique. */
  lemma UpdatePreservesValidRegistry(k: Kind, reg: Registry, id: string, b: Body)
    requires ValidRegistry(k, reg)
    ensures ValidRegistry(k, Update(k, reg, id, b).1)
  {
    var u := Update(k, reg, id, b);
    if u.0.Ok? {
      var e := u.0.data;
      assert ValidEntry(k, e) by {
        if b.name.Some? { TrimFixesTrimmed(b.name.value); }
        if b.description.Some? { TrimFixesTrimmed(b.description.value); }
      }
      AddKeepsNamesDistinct(reg, id, e, Some(id));
      assert u.1 == reg[id := e];
    }
  }

  /** Deleting keeps the registry valid. */
  lemma DeletePreservesValidRegistry(k: Kind, reg: Registry, id: string)
    requires ValidRegistry(k, reg)
    ensures ValidRegistry(k, Delete(k, reg, id).1)
  {
  }

  /** Under unique names, an entry's own name is taken by nobody else. */
  lemma OwnNameNotTaken(reg: Registry, id: string)
    requires NamesDistinct(reg) && id in reg
    ensures !NameTaken(reg, reg[id].name, Some(id))
  {
  }

  /** Saving an entry under its own current name is never a duplicate. */
  lemma KeepingOwnNameIsAllowed(k: Kind, reg: Registry, id: string, description: string)
    requires NamesDistinct(reg) && id in reg && ValidName(reg[id].name)
    requires ValidDescription(description)
    ensures Update(k, reg, id, Body(Some(reg[id].name), Some(description), None)).0.Ok?
  {
    var name := reg[id].name;
    var b := Body(Some(name), Some(description), None);
    assert Trim(name) == name && UpdateFieldsValid(b) by {
      TrimFixesTrimmed(name);
      TrimFixesTrimmed(description);
    }
    assert !NameTaken(reg, Trim(name), Some(id)) by { OwnNameNotTaken(reg, id); }
    UpdateSucceeds(k, reg, id, b);
  }

  lemma UpdateSucceeds(k: Kind, reg: Registry, id: string, b: Body)
    requires Truthy(b.name) && !NameTaken(reg, Trim(b.name.value), Some(id))
    requires UpdateFieldsValid(b) && id in reg
    ensures Update(k, reg, id, b).0.Ok?
  {
  }

  /** After a successful create, the same name cannot be created again. */
  lemma CreateTwiceIsDuplicate(k: Kind, reg: Registry, b: Body, id1: string, id2: string)
    requires Create(k, reg, b, id1).0.Ok?
    ensures var reg1 := Create(k, reg, b, id1).1;
            Create(k, reg1, b, id2) == (Err(400, DuplicateCode(k)), reg1)
  {
    var reg1 := Create(k, reg, b, id1).1;
    assert reg1[id1].name == Trim(b.name.value);
  }

  /** Deleting what was just created gives the registry back. */
  lemma CreateThenDeleteRestores(k: Kind, reg: Registry, b: Body, newId: string)
    requires Create(k, reg, b, newId).0.Ok?
    ensures Delete(k, Create(k, reg, b, newId).1, newId) == (Ok(200, ()), reg)
  {
    var reg1 := Create(k, reg, b, newId).1;
    assert reg1 - {newId} == reg;
  }

  /**
   * Each write is visible to a later read: a created entry reads back under
   * its new id, an updated entry reads back patched, a deleted id is 404,
   * and every other id reads as before.
   */
  lemma CreateThenGet(k: Kind, reg: Registry, b: Body, newId: string, other: string)
    requires Create(k, reg, b, newId).0.Ok?
    ensures GetById(k, Create(k, reg, b, newId).1, newId) == Ok(200, Candidate(k, b))
    ensures other != newId ==> GetById(k, Create(k, reg, b, newId).1, other) == GetById(k, reg, other)
  {
  }

  lemma UpdateThenGet(k: Kind, reg: Registry, id: string, b: Body, other: string)
    requires Update(k, reg, id, b).0.Ok?
    ensures id in reg && GetById(k, Update(k, reg, id, b).1, id) == Ok(200, Patched(k, reg[id], b))
    ensures other != id ==> GetById(k, Update(k, reg, id, b).1, other) == GetById(k, reg, other)
  {
  }

  lemma DeleteThenGet(k: Kind, reg: Registry, id: string, other: string)
    requires Delete(k, reg, id).0.Ok?
    ensures GetById(k, Delete(k, reg, id).1, id) == Err(404, NotFoundCode(k))
    ensures other != id ==> GetById(k, Delete(k, reg, id).1, other) == GetById(k, reg, other)
  {
  }

  /** Ids listed in ascending name order. */
  predicate SortedByName(reg: Registry, ids: seq<string>)
    requires forall i :: 0 <= i < |ids| ==> ids[i] in reg
  {
    forall i, j :: 0 <= i < j < |ids| ==> StrLe(reg[ids[i]].name, reg[ids[j]].name)
  }

  /** A head no greater than any later id keeps the order. */
  lemma ConsSorted(reg: Registry, head: string, rest: seq<string>)
    requires head in reg && forall i :: 0 <= i < |rest| ==> rest[i] in reg
    requires SortedByName(reg, rest)
    requires forall j :: 0 <= j < |rest| ==> StrLe(reg[head].name, reg[rest[j]].name)
    ensures SortedByName(reg, [head] + rest)
  {
    var r := [head] + rest;
    forall i, j | 0 <= i < j < |r| ensures StrLe(reg[r[i]].name, reg[r[j]].name) {
      if i > 0 {
        assert r[i] == rest[i - 1] && r[j] == rest[j - 1];
      } else {
        assert r[j] == rest[j - 1];
      }
    }
  }

  /** The smallest head of a sorted sequence: below the first, so below all. */
  lemma PrependSmallest(reg: Registry, ids: seq<string>, key: string)
    requires key in reg && forall i :: 0 <= i < |ids| ==> ids[i] in reg
    requires SortedByName(reg, ids)
    requires |ids| > 0 ==> StrLe(reg[key].name, reg[ids[0]].name)
    ensures SortedByName(reg, [key] + ids)
  {
    forall j | 0 <= j < |ids| ensures StrLe(reg[key].name, reg[ids[j]].name) {
      if j > 0 {
        StrLeTransitive(reg[key].name, reg[ids[0]].name, reg[ids[j]].name);
      }
    }
    ConsSorted(reg, key, ids);
  }

  /** Inserting behind a head no greater than the key keeps the head first. */
  lemma InsertBehindHead(reg: Registry, ids: seq<string>, key: string, rest: seq<string>)
    requires |ids| > 0 && key in reg && forall i :: 0 <= i < |ids| ==> ids[i] in reg
    requires SortedByName(reg, ids) && StrLe(reg[ids[0]].name, reg[key].name)
    requires forall i :: 0 <= i < |rest| ==> rest[i] in reg
    requires SortedByName(reg, rest)
    requires multiset(rest) == multiset(ids[1..]) + multiset{key}
    ensures SortedByName(reg, [ids[0]] + rest)
  {
    forall j | 0 <= j < |rest| ensures StrLe(reg[ids[0]].name, reg[rest[j]].name) {
      var x := rest[j];
      assert multiset(rest)[x] > 0;
      if x != key {
        assert multiset(ids[1..])[x] > 0;
        assert x in ids[1..];
        var m :| 0 <= m < |ids[1..]| && ids[1..][m] == x;
        assert ids[m + 1] == x;
      }
    }
    ConsSorted(reg, ids[0], rest);
  }

  /** One insertion step: `key` goes before the first id whose name it does not exceed. */
  function InsertByName(reg: Registry, ids: seq<string>, key: string): (r: seq<string>)
    requires key in reg && forall i :: 0 <= i < |ids| ==> ids[i] in reg
    requires SortedByName(reg, ids)
    ensures forall i :: 0 <= i < |r| ==> r[i] in reg
    ensures multiset(r) == multiset(ids) + multiset{key}
    ensures SortedByName(reg, r)
  {
    if |ids| == 0 then [key]
    else if StrLe(reg[key].name, reg[ids[0]].name) then
      PrependSmallest(reg, ids, key);
      [key] + ids
    else
      StrLeTotal(reg[key].name, reg[ids[0]].name);
      var rest := InsertByName(reg, ids[1..], key);
      InsertBehindHead(reg, ids, key, rest);
      assert ids == [ids[0]] + ids[1..];
      [ids[0]] + rest
  }

  /**
   * The listing `find().sort({ name: 1 })`: every id exactly once, in
   * ascending name order.
   */
  method ListByName(reg: Registry) returns (ids: seq<string>)
    ensures forall i :: 0 <= i < |ids| ==> ids[i] in reg
    ensures forall id :: multiset(ids)[id] == if id in reg then 1 else 0
    ensures SortedByName(reg, ids)
  {
    ids := [];
    var rest := reg.Keys;
    while rest != {}
      invariant rest <= reg.Keys
      invariant forall i :: 0 <= i < |ids| ==> ids[i] in reg
      invariant forall id :: multiset(ids)[id] == if id in reg && id !in rest then 1 else 0
      invariant SortedByName(reg, ids)
      decreases rest
    {
      var key :| key in rest;
      ids := InsertByName(reg, ids, key);
      rest := rest - {key};
    }
  }
}
