/**
 * The resource handlers: the public, admin, free and paid listings (a fixed
 * base filter ANDed with the optional query fields, plus pagination), the
 * visibility rule of the single-resource read, submission, and the two
 * admin updates of status and pricing. The collection is a map from id to
 * stored document; every handler returns its reply and the new collection.
 */
module ResourceController {
  import opened Wrappers
  import opened Text
  import opened Api
  import opened Pagination
  import opened ResourceSchema

  type Store = map<string, Resource>

  /** Every stored document satisfies the schema. */
  predicate ValidStore(store: Store) {
    forall id :: id in store ==> ValidResource(store[id])
  }

  /** A store query: one equality constraint per present field, all ANDed. */
  datatype Query = Query(
    status: Option<string>,
    category: Option<string>,
    rtype: Option<string>,
    difficulty: Option<string>,
    pricingType: Option<string>)

  predicate FieldIs(constraint: Option<string>, value: string) {
    constraint.Some? ==> constraint.value == value
  }

  predicate Matches(q: Query, r: Resource) {
    && FieldIs(q.status, StatusName(r.status))
    && FieldIs(q.category, r.category)
    && FieldIs(q.rtype, r.rtype)
    && FieldIs(q.difficulty, DifficultyName(r.difficulty))
    && FieldIs(q.pricingType, PricingName(r.pricingType))
  }

  /** The ids a query selects. */
  function Select(store: Store, q: Query): set<string> {
    set id | id in store && Matches(q, store[id])
  }

  /** `if (value) query.field = value`: a constraint only for a truthy value. */
  function IfTruthy(value: Option<string>): Option<string> {
    if Truthy(value) then value else None
  }

  /** A listing: the selected ids (the page window and sort are not modelled) and the pagination block. */
  datatype Listing = Listing(matched: set<string>, pagination: PageInfo)

  function List(store: Store, q: Query, page: Option<int>, limit: Option<int>): Listing {
    var ids := Select(store, q);
    Listing(ids, Paginate(page, limit, |ids|))
  }

  datatype ListParams = ListParams(
    category: Option<string>,
    rtype: Option<string>,
    difficulty: Option<string>,
    pricingType: Option<string>,
    page: Option<int>,
    limit: Option<int>)

  /** A field filter of the public listing: no constraint unless the value is truthy. */
  predicate Wanted(value: Option<string>, actual: string) {
    Truthy(value) ==> actual == value.value
  }

  /** getResources: approved resources, narrowed by each truthy query field. */
  function GetResources(store: Store, p: ListParams): (l: Listing)
    ensures forall id :: id in l.matched ==> id in store && store[id].status == Approved
    ensures forall id :: id in store ==>
      (id in l.matched <==>
        && store[id].status == Approved
        && Wanted(p.category, store[id].category)
        && Wanted(p.rtype, store[id].rtype)
        && Wanted(p.difficulty, DifficultyName(store[id].difficulty))
        && Wanted(p.pricingType, PricingName(store[id].pricingType)))
    ensures l.pagination.total == |l.matched|
    ensures l.pagination.page == p.page.GetOr(1) && l.pagination.limit == p.limit.GetOr(10)
  {
    var q := Query(Some("approved"), IfTruthy(p.category), IfTruthy(p.rtype),
                   IfTruthy(p.difficulty), IfTruthy(p.pricingType));
    List(store, q, p.page, p.limit)
  }

  /** getAllResources (admin): every resource, or those with the given status when one is given. */
  function GetAllResources(store: Store, status: Option<string>, page: Option<int>, limit: Option<int>): (l: Listing)
    ensures !Truthy(status) ==> l.matched == store.Keys
    ensures Truthy(status) ==>
      forall id :: id in l.matched <==> id in store && StatusName(store[id].status) == status.value
    ensures l.pagination.total == |l.matched|
  {
    List(store, Query(IfTruthy(status), None, None, None, None), page, limit)
  }

  /** getFreeResources: exactly the approved free resources. */
  function GetFreeResources(store: Store, page: Option<int>, limit: Option<int>): (l: Listing)
    ensures forall id :: id in l.matched <==>
      id in store && store[id].status == Approved && store[id].pricingType == Free
    ensures l.pagination.total == |l.matched|
  {
    List(store, Query(Some("approved"), None, None, None, Some("free")), page, limit)
  }

  /** getPaidResources: exactly the approved paid resources. */
  function GetPaidResources(store: Store, page: Option<int>, limit: Option<int>): (l: Listing)
    ensures forall id :: id in l.matched <==>
      id in store && store[id].status == Approved && store[id].pricingType == Paid
    ensures l.pagination.total == |l.matched|
  {
    List(store, Query(Some("approved"), None, None, None, Some("paid")), page, limit)
  }

  /** getResourceById: absent, or not approved for a non-admin caller, reads as not found. */
  function GetResourceById(store: Store, caller: Caller, id: string): (r: Reply<Resource>)
    ensures r.Err? <==> id !in store || (store[id].status != Approved && !IsAdmin(caller))
    ensures r.Err? ==> r.status == 404 && r.code == ResourceNotFound
    ensures r.Ok? ==> r.status == 200 && r.data == store[id]
  {
    if id !in store || (store[id].status != Approved && (caller.None? || caller.value.role != "admin")) then
      Err(404, ResourceNotFound)
    else
      Ok(200, store[id])
  }

  /** The body of a submission; every field may be absent. */
  datatype CreateBody = CreateBody(
    name: Option<string>,
    description: Option<string>,
    url: Option<string>,
    category: Option<string>,
    rtype: Option<string>,
    difficulty: Option<string>,
    tags: Option<seq<string>>,
    pricingType: Option<string>,
    price: Option<real>)

  predicate HasRequiredFields(b: CreateBody) {
    && Truthy(b.name) && Truthy(b.description) && Truthy(b.url) && Truthy(b.category)
    && Truthy(b.rtype) && Truthy(b.difficulty) && Truthy(b.pricingType)
  }

  /** `!price || price <= 0`: absent, zero or negative. */
  predicate BadPrice(price: Option<real>) {
    price.None? || price.value <= 0.0
  }

  /** The document a complete submission hands to `create`: pending, no votes, a price only when paid. */
  function Submitted(b: CreateBody, user: UserPayload): (d: Draft)
    requires HasRequiredFields(b)
    ensures d.status == Some("pending") && d.createdBy == user.id && d.votes == Votes(0, 0)
    ensures d.price == (if b.pricingType.value == "paid" then b.price else None)
  {
    Draft(b.name.value, b.description.value, b.url.value, b.category.value,
          b.rtype.value, b.difficulty.value, b.tags.GetOr([]), Some("pending"),
          user.id, b.pricingType.value,
          if b.pricingType.value == "paid" then b.price else None,
          Votes(0, 0))
  }

  /** The two handler checks of a submission passed: required fields present, and a paid one priced. */
  predicate PassesHandlerChecks(caller: Caller, b: CreateBody) {
    caller.Some? && HasRequiredFields(b) && !(b.pricingType == Some("paid") && BadPrice(b.price))
  }

  /**
   * createResource. `newId` is the id the database assigns; a collision stands
   * for the duplicate-key failure, which like a validation failure ends in the
   * handler's catch.
   */
  function CreateResource(store: Store, caller: Caller, b: CreateBody, newId: string): (res: (Reply<Resource>, Store))
    ensures caller.None? ==> res == (Err(401, NotAuthenticated), store)
    ensures caller.Some? && !HasRequiredFields(b) ==> res == (Err(400, MissingFields), store)
    ensures caller.Some? && HasRequiredFields(b) && b.pricingType == Some("paid") && BadPrice(b.price) ==>
      res == (Err(400, InvalidPrice), store)
    ensures PassesHandlerChecks(caller, b) ==>
      (res.0.Ok? <==> Validate(Submitted(b, caller.value)).Some? && newId !in store)
    ensures PassesHandlerChecks(caller, b) && res.0.Err? ==> res.0 == Err(500, ResourceCreateError)
    ensures res.0.Err? ==> res.1 == store
    ensures res.0.Ok? ==>
      && caller.Some? && HasRequiredFields(b)
      && newId !in store && res.1 == store[newId := res.0.data]
      && res.0.status == 201
      && ValidResource(res.0.data)
      && res.0.data.status == Pending
      && res.0.data.createdBy == caller.value.id
      && res.0.data.votes == Votes(0, 0)
      && res.0.data.tags == b.tags.GetOr([])
      && res.0.data.category == b.category.value && res.0.data.rtype == b.rtype.value
      && Validate(Submitted(b, caller.value)) == Some(res.0.data)
      && res.0.data.name == Trim(b.name.value)
      && res.0.data.description == Trim(b.description.value) && res.0.data.url == Trim(b.url.value)
      && PricingName(res.0.data.pricingType) == b.pricingType.value
      && DifficultyName(res.0.data.difficulty) == b.difficulty.value
      && (res.0.data.pricingType == Paid ==> res.0.data.price == b.price)
      && (res.0.data.pricingType == Free ==> res.0.data.price == None)
  {
    if caller.None? then (Err(401, NotAuthenticated), store)
    else if !HasRequiredFields(b) then (Err(400, MissingFields), store)
    else if b.pricingType.value == "paid" && BadPrice(b.price) then (Err(400, InvalidPrice), store)
    else
      match Validate(Submitted(b, caller.value))
      case None => (Err(500, ResourceCreateError), store)
      case Some(r) =>
        if newId in store then (Err(500, ResourceCreateError), store)
        else (Ok(201, r), store[newId := r])
  }

  /** The schema's rules, as they bear on a complete submission by a known user. */
  predicate MeetsSchema(b: CreateBody, user: UserPayload)
    requires HasRequiredFields(b)
  {
    && user.id != ""
    && 0 < JsLength(Trim(b.name.value)) <= MaxNameLength
    && 0 < JsLength(Trim(b.description.value)) <= MaxDescriptionLength
    && Trim(b.url.value) != ""
    && ParseDifficulty(b.difficulty.value).Some?
    && |b.tags.GetOr([])| <= MaxTags
    && (b.pricingType == Some("free") || (b.pricingType == Some("paid") && b.price.Some? && b.price.value > 0.0))
  }

  /** The schema accepts the document of a submission meeting its rules. */
  lemma SubmittedValidates(b: CreateBody, user: UserPayload)
    requires HasRequiredFields(b) && MeetsSchema(b, user)
    ensures Validate(Submitted(b, user)).Some?
  {
    TrimFixesTrimmed(b.name.value);
    TrimFixesTrimmed(b.description.value);
    TrimFixesTrimmed(b.url.value);
  }

  /**
   * A submission the schema's rules allow is stored under a fresh id: trimmed
   * name and description within their limits, a URL, a known difficulty, at
   * most ten tags, and free, or paid with a positive price.
   */
  lemma SubmissionMeetingSchemaIsStored(store: Store, user: UserPayload, b: CreateBody, newId: string)
    requires HasRequiredFields(b) && MeetsSchema(b, user) && newId !in store
    ensures CreateResource(store, Some(user), b, newId).0.Ok?
  {
    SubmittedValidates(b, user);
  }

  /** `store2` differs from `store` at most in the document under `id`. */
  predicate OnlyChanged(store: Store, store2: Store, id: string) {
    && store2.Keys == store.Keys
    && forall k :: k in store && k != id ==> store2[k] == store[k]
  }

  /** updateResourceStatus: validate the status first, then look up and set only that field. */
  function UpdateResourceStatus(store: Store, id: string, status: Option<string>): (res: (Reply<Resource>, Store))
    ensures (status.None? || ParseStatus(status.value).None?) ==> res == (Err(400, InvalidStatus), store)
    ensures status.Some? && ParseStatus(status.value).Some? && id !in store ==>
      res == (Err(404, ResourceNotFound), store)
    ensures status.Some? && ParseStatus(status.value).Some? && id in store ==> res.0.Ok?
    ensures res.0.Err? ==> res.1 == store
    ensures res.0.Ok? ==>
      && id in store && status.Some? && OnlyChanged(store, res.1, id)
      && res.1[id] == store[id].(status := res.0.data.status)
      && StatusName(res.0.data.status) == status.value
      && res.0.data == res.1[id]
  {
    if status.None? || ParseStatus(status.value).None? then (Err(400, InvalidStatus), store)
    else if id !in store then (Err(404, ResourceNotFound), store)
    else
      var r := store[id].(status := ParseStatus(status.value).value);
      (Ok(200, r), store[id := r])
  }

  /**
   * updateResourcePricing. After the two handler checks, the update validators
   * run on the supplied paths before the lookup; of them only `min: 0` on price
   * is taken to fail (the other price validators read the document through
   * `this`, which an update validator does not have). An absent price leaves
   * the stored price as it is.
   */
  function UpdateResourcePricing(store: Store, id: string, pricingType: Option<string>, price: Option<real>): (res: (Reply<Resource>, Store))
    ensures (pricingType.None? || ParsePricing(pricingType.value).None?) ==>
      res == (Err(400, InvalidPricingType), store)
    ensures pricingType == Some("paid") && BadPrice(price) ==> res == (Err(400, InvalidPrice), store)
    ensures pricingType.Some? && ParsePricing(pricingType.value).Some? && !(pricingType == Some("paid") && BadPrice(price)) ==>
      && (price.Some? && price.value < 0.0 ==> res == (Err(500, ResourceUpdateError), store))
      && (!(price.Some? && price.value < 0.0) && id !in store ==> res == (Err(404, ResourceNotFound), store))
      && (!(price.Some? && price.value < 0.0) && id in store ==> res.0.Ok?)
    ensures res.0.Err? ==> res.1 == store
    ensures res.0.Ok? ==>
      && id in store && pricingType.Some? && OnlyChanged(store, res.1, id)
      && PricingName(res.0.data.pricingType) == pricingType.value
      && res.0.data.price == (if price.Some? then price else store[id].price)
      && res.1[id] == store[id].(pricingType := res.0.data.pricingType, price := res.0.data.price)
      && res.0.data == res.1[id]
  {
    if pricingType.None? || ParsePricing(pricingType.value).None? then (Err(400, InvalidPricingType), store)
    else if pricingType.value == "paid" && BadPrice(price) then (Err(400, InvalidPrice), store)
    else if price.Some? && price.value < 0.0 then (Err(500, ResourceUpdateError), store)
    else if id !in store then (Err(404, ResourceNotFound), store)
    else
      var r := store[id].(pricingType := ParsePricing(pricingType.value).value,
                          price := if price.Some? then price else store[id].price);
      (Ok(200, r), store[id := r])
  }

  /** Every listing the public sees holds approved resources only. */
  lemma PublicListingsOnlyApproved(store: Store, p: ListParams, page: Option<int>, limit: Option<int>)
    ensures forall id :: id in GetResources(store, p).matched ==> store[id].status == Approved
    ensures forall id :: id in GetFreeResources(store, page, limit).matched ==> store[id].status == Approved
    ensures forall id :: id in GetPaidResources(store, page, limit).matched ==> store[id].status == Approved
  {
  }

  /** The public listing never shows more than the admin listing without a status filter. */
  lemma {:induction false} PublicWithinAdmin(store: Store, p: ListParams, page: Option<int>, limit: Option<int>)
    ensures GetResources(store, p).matched <= GetAllResources(store, None, page, limit).matched
    ensures GetResources(store, ListParams(None, None, None, None, page, limit)).matched
            == GetAllResources(store, Some("approved"), page, limit).matched
  {
    var a := GetResources(store, ListParams(None, None, None, None, page, limit)).matched;
    var b := GetAllResources(store, Some("approved"), page, limit).matched;
    forall id ensures id in a <==> id in b {
      if id in store {
        assert StatusName(store[id].status) == "approved" <==> store[id].status == Approved;
      }
    }
  }

  /** The free and paid listings split the approved resources between them. */
  lemma {:induction false} FreeAndPaidPartitionApproved(store: Store, page: Option<int>, limit: Option<int>)
    ensures GetFreeResources(store, page, limit).matched !! GetPaidResources(store, page, limit).matched
    ensures GetFreeResources(store, page, limit).matched + GetPaidResources(store, page, limit).matched
            == GetResources(store, ListParams(None, None, None, None, page, limit)).matched
  {
    var f := GetFreeResources(store, page, limit).matched;
    var q := GetPaidResources(store, page, limit).matched;
    var a := GetResources(store, ListParams(None, None, None, None, page, limit)).matched;
    assert forall id :: id in a <==> id in store && store[id].status == Approved;
    forall id | id in a ensures id in f + q {
      assert store[id].pricingType == Free || store[id].pricingType == Paid;
    }
  }

  /** Submission keeps every stored document valid. */
  lemma CreatePreservesValidStore(store: Store, caller: Caller, b: CreateBody, newId: string)
    requires ValidStore(store)
    ensures ValidStore(CreateResource(store, caller, b, newId).1)
  {
  }

  /** Moderation keeps every stored document valid. */
  lemma UpdateStatusPreservesValidStore(store: Store, id: string, status: Option<string>)
    requires ValidStore(store)
    ensures ValidStore(UpdateResourceStatus(store, id, status).1)
  {
  }

  /** Repricing keeps every stored document valid, including a free resource that keeps an old price. */
  lemma UpdatePricingPreservesValidStore(store: Store, id: string, pricingType: Option<string>, price: Option<real>)
    requires ValidStore(store)
    ensures ValidStore(UpdateResourcePricing(store, id, pricingType, price).1)
  {
  }

  /** A pending resource is hidden from the public, listed for the admin, and readable only by admins. */
  lemma PendingIsHidden(store: Store, caller: Caller, id: string, page: Option<int>, limit: Option<int>)
    requires id in store && store[id].status == Pending
    ensures id !in GetResources(store, ListParams(None, None, None, None, page, limit)).matched
    ensures id in GetAllResources(store, None, page, limit).matched
    ensures GetResourceById(store, caller, id).Err? == !IsAdmin(caller)
  {
  }

  /** Approving a stored resource puts it in the unfiltered public listing. */
  lemma ApprovedIsListed(store: Store, id: string, page: Option<int>, limit: Option<int>)
    requires id in store
    ensures id in GetResources(UpdateResourceStatus(store, id, Some("approved")).1,
                               ListParams(None, None, None, None, page, limit)).matched
  {
    var s2 := UpdateResourceStatus(store, id, Some("approved")).1;
    assert s2[id].status == Approved;
  }

  /** A submission stays hidden from the public until approved, and is visible after approval. */
  lemma {:induction false} SubmitThenApprove(store: Store, user: UserPayload, b: CreateBody, newId: string, page: Option<int>, limit: Option<int>)
    requires CreateResource(store, Some(user), b, newId).0.Ok?
    ensures var s1 := CreateResource(store, Some(user), b, newId).1;
      && newId !in GetResources(s1, ListParams(None, None, None, None, page, limit)).matched
      && newId in GetAllResources(s1, None, page, limit).matched
      && GetResourceById(s1, Some(user), newId).Err? == (user.role != "admin")
      && newId in GetResources(UpdateResourceStatus(s1, newId, Some("approved")).1,
                               ListParams(None, None, None, None, page, limit)).matched
  {
    var res := CreateResource(store, Some(user), b, newId);
    var s1 := res.1;
    assert newId in s1 && s1[newId].status == Pending by {
      assert s1 == store[newId := res.0.data] && res.0.data.status == Pending;
    }
    PendingIsHidden(s1, Some(user), newId, page, limit);
    ApprovedIsListed(s1, newId, page, limit);
  }
}
