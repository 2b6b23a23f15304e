/**
 * The front end's server-backed listing store: the filter state sent to the
 * listing endpoint, the current page, and the loaders that replace or extend
 * the loaded rows and forward embedded interactions to the interactions
 * store. The request itself is a parameter: it is given the request the
 * store makes and says what came back.
 */
module ResourceListStore {
  import opened Wrappers
  import opened Seqs
  import opened InteractionsStore

  /** The per-user part embedded in a listed resource. */
  datatype Embedded = Embedded(vote: Option<Vote>, isBookmarked: bool)

  /** A loaded row; only the id and the embedded interactions are read by the store. */
  datatype Row = Row(id: string, userInteractions: Option<Embedded>)

  datatype ListFilters = ListFilters(
    category: string,
    rtype: string,
    difficulty: seq<string>,
    pricingType: seq<string>,
    search: string)

  /** A `Partial` of the filters: each field may be left undefined. */
  datatype FilterPatch = FilterPatch(
    category: Option<string>,
    rtype: Option<string>,
    difficulty: Option<seq<string>>,
    pricingType: Option<seq<string>>,
    search: Option<string>)

  datatype ListState = ListState(
    resources: seq<Row>,
    loading: bool,
    error: Option<string>,
    currentPage: int,
    totalPages: int,
    filters: ListFilters)

  const InitialState: ListState := ListState([], false, None, 1, 1, ListFilters("", "", [], [], ""))

  /**
   * updateFilters: category 'all' clears the category and nothing else;
   * otherwise each supplied field overwrites its filter. The page goes back
   * to 1 either way; the reload it starts is `Load` with no append.
   */
  function UpdateFilters(s: ListState, patch: FilterPatch): (r: ListState)
    ensures r.currentPage == 1
    ensures r.resources == s.resources && r.totalPages == s.totalPages
    ensures r.loading == s.loading && r.error == s.error
    ensures patch.category == Some("all") ==> r.filters == s.filters.(category := "")
    ensures patch.category != Some("all") ==>
      && r.filters.category == patch.category.GetOr(s.filters.category)
      && r.filters.rtype == patch.rtype.GetOr(s.filters.rtype)
      && r.filters.difficulty == patch.difficulty.GetOr(s.filters.difficulty)
      && r.filters.pricingType == patch.pricingType.GetOr(s.filters.pricingType)
      && r.filters.search == patch.search.GetOr(s.filters.search)
  {
    var f := s.filters;
    var g :=
      if patch.category == Some("all") then f.(category := "")
      else ListFilters(
        if patch.category.Some? then patch.category.value else f.category,
        if patch.rtype.Some? then patch.rtype.value else f.rtype,
        if patch.difficulty.Some? then patch.difficulty.value else f.difficulty,
        if patch.pricingType.Some? then patch.pricingType.value else f.pricingType,
        if patch.search.Some? then patch.search.value else f.search);
    s.(filters := g, currentPage := 1)
  }

  /** Applying the same update twice is the same as applying it once. */
  lemma UpdateFiltersIdempotent(s: ListState, patch: FilterPatch)
    ensures UpdateFilters(UpdateFilters(s, patch), patch) == UpdateFilters(s, patch)
  {
  }

  /** An empty patch changes only the page. */
  lemma EmptyPatchOnlyResetsPage(s: ListState)
    ensures UpdateFilters(s, FilterPatch(None, None, None, None, None)) == s.(currentPage := 1)
  {
  }

  /** changePage: the page becomes the argument; the reload it starts is `Load` with no append. */
  function ChangePage(s: ListState, page: int): (r: ListState)
    ensures r.currentPage == page
    ensures r.(currentPage := s.currentPage) == s
  {
    s.(currentPage := page)
  }

  /** Which loader runs. */
  datatype Loader = AllResources | FreeResources | PaidResources

  /** The request each loader sends: filters and page, or the page alone. */
  datatype Request = ListRequest(filters: ListFilters, page: int) | FreeRequest(page: int) | PaidRequest(page: int)

  function RequestFor(loader: Loader, s: ListState): Request {
    match loader
    case AllResources => ListRequest(s.filters, s.currentPage)
    case FreeResources => FreeRequest(s.currentPage)
    case PaidResources => PaidRequest(s.currentPage)
  }

  function FailureMessage(loader: Loader): string {
    match loader
    case AllResources => "Failed to load resources"
    case FreeResources => "Failed to load free resources"
    case PaidResources => "Failed to load paid resources"
  }

  /** The answer: rows and the page count, or a thrown error. */
  datatype Outcome = Loaded(data: seq<Row>, pages: int) | LoadFailed

  /** The rows `syncInteractionsToStore` forwards: an id and embedded interactions. */
  predicate Forwardable(row: Row) {
    row.id != "" && row.userInteractions.Some?
  }

  /**
   * syncInteractionsToStore. `extract` stands for the interaction service's
   * extraction helper. The second component is what was forwarded, or None
   * when nothing qualified and the map was left alone.
   */
  function SyncInteractions(m: InteractionMap, rows: seq<Row>, extract: seq<Row> -> InteractionMap): (res: (InteractionMap, Option<seq<Row>>))
    ensures res.1.None? <==> forall row :: row in rows ==> !Forwardable(row)
    ensures res.1.None? ==> res.0 == m
    ensures res.1.Some? ==> forall row :: row in res.1.value <==> row in rows && Forwardable(row)
    ensures res.1.Some? ==> res.0 == UpdateInteractionsMap(m, extract(res.1.value))
  {
    var selected := Filter(rows, Forwardable);
    assert forall row :: row in selected <==> row in rows && Forwardable(row) by {
      forall row ensures row in selected <==> row in rows && Forwardable(row) {
        FilterMembership(rows, Forwardable, row);
      }
    }
    if |selected| > 0 then
      assert selected[0] in selected;
      (UpdateInteractionsMap(m, extract(selected)), Some(selected))
    else (m, None)
  }

  /**
   * Syncing the same rows again changes nothing, and after a sync every
   * extracted entry reads back through the interactions store's getter.
   */
  lemma SyncTwiceIsOnce(m: InteractionMap, rows: seq<Row>, extract: seq<Row> -> InteractionMap)
    ensures var (once, forwarded) := SyncInteractions(m, rows, extract);
            && SyncInteractions(once, rows, extract).0 == once
            && (forwarded.Some? ==> forall k :: k in extract(forwarded.value) ==>
                  GetResourceInteraction(once, k) == Some(extract(forwarded.value)[k]))
  {
    var (once, forwarded) := SyncInteractions(m, rows, extract);
    if forwarded.Some? {
      assert SyncInteractions(once, rows, extract).1 == forwarded;
      MergeLaws(m, extract(forwarded.value), extract(forwarded.value));
    }
  }

  /**
   * loadResources, loadFreeResources and loadPaidResources: on success the
   * rows replace or extend the list, their interactions are forwarded, and
   * the page count is taken over; on failure the rows stay and the error is
   * set. Loading is off and the filters and page untouched either way.
   */
  function Load(s: ListState, m: InteractionMap, loader: Loader, append: bool,
                service: Request -> Outcome, extract: seq<Row> -> InteractionMap): (res: (ListState, InteractionMap))
    ensures !res.0.loading
    ensures res.0.filters == s.filters && res.0.currentPage == s.currentPage
    ensures service(RequestFor(loader, s)).LoadFailed? ==>
      res.0 == s.(loading := false, error := Some(FailureMessage(loader))) && res.1 == m
    ensures service(RequestFor(loader, s)).Loaded? ==>
      var answer := service(RequestFor(loader, s));
      && res.0.resources == (if append then s.resources + answer.data else answer.data)
      && res.0.totalPages == answer.pages
      && res.0.error.None?
      && res.1 == SyncInteractions(m, answer.data, extract).0
  {
    var answer := service(RequestFor(loader, s));
    match answer
    case LoadFailed => (s.(loading := false, error := Some(FailureMessage(loader))), m)
    case Loaded(data, pages) =>
      var rows := if append then s.resources + data else data;
      (s.(resources := rows, loading := false, error := None, totalPages := pages),
       SyncInteractions(m, data, extract).0)
  }

  /**
   * The loaders as the store is written: the interaction service it calls has
   * no extraction helper, so the sync throws as soon as one row qualifies.
   * The throw lands in the loader's catch after the rows were already taken
   * over, and before the page count is.
   */
  function LoadAsWritten(s: ListState, m: InteractionMap, loader: Loader, append: bool,
                         service: Request -> Outcome): (res: (ListState, InteractionMap))
    ensures !res.0.loading && res.1 == m
    ensures res.0.filters == s.filters && res.0.currentPage == s.currentPage
    ensures service(RequestFor(loader, s)).LoadFailed? ==>
      res.0 == s.(loading := false, error := Some(FailureMessage(loader)))
    ensures service(RequestFor(loader, s)).Loaded? ==>
      var answer := service(RequestFor(loader, s));
      && res.0.resources == (if append then s.resources + answer.data else answer.data)
      && (res.0.error.None? <==> forall row :: row in answer.data ==> !Forwardable(row))
      && (res.0.error.Some? ==> res.0.error == Some(FailureMessage(loader)) && res.0.totalPages == s.totalPages)
      && (res.0.error.None? ==> res.0.totalPages == answer.pages)
  {
    var answer := service(RequestFor(loader, s));
    match answer
    case LoadFailed => (s.(loading := false, error := Some(FailureMessage(loader))), m)
    case Loaded(data, pages) =>
      var rows := if append then s.resources + data else data;
      if exists row :: row in data && Forwardable(row) then
        (s.(resources := rows, loading := false, error := Some(FailureMessage(loader))), m)
      else
        (s.(resources := rows, loading := false, error := None, totalPages := pages), m)
  }

  /**
   * The two loaders part exactly on answers carrying embedded interactions:
   * there the written one reports a failure, keeps the old page count and
   * forwards nothing, while the intended one succeeds. Elsewhere they agree.
   */
  lemma {:induction false} AsWrittenLoadReportsFailure(s: ListState, m: InteractionMap, loader: Loader, append: bool,
                                                      service: Request -> Outcome, extract: seq<Row> -> InteractionMap)
    requires service(RequestFor(loader, s)).Loaded?
    ensures var answer := service(RequestFor(loader, s));
            var written := LoadAsWritten(s, m, loader, append, service);
            var intended := Load(s, m, loader, append, service, extract);
            && written.0.resources == intended.0.resources
            && intended.0.error.None?
            && ((exists row :: row in answer.data && Forwardable(row)) <==> written.0.error.Some?)
            && ((exists row :: row in answer.data && Forwardable(row)) ==>
                  written.0.totalPages == s.totalPages && written.1 == m)
            && ((forall row :: row in answer.data ==> !Forwardable(row)) ==> written == intended)
  {
    var answer := service(RequestFor(loader, s));
    if forall row :: row in answer.data ==> !Forwardable(row) {
      assert SyncInteractions(m, answer.data, extract).0 == m;
    }
  }

  /**
   * The reload after a page change asks for the new page: the main loader
   * with the filters unchanged, the free and paid loaders with the page alone.
   */
  lemma ChangePageRequests(s: ListState, page: int)
    ensures RequestFor(AllResources, ChangePage(s, page)) == ListRequest(s.filters, page)
    ensures RequestFor(FreeResources, ChangePage(s, page)) == FreeRequest(page)
    ensures RequestFor(PaidResources, ChangePage(s, page)) == PaidRequest(page)
  {
  }

  /** Two appending loads leave the rows in arrival order after the old ones. */
  lemma AppendsAccumulate(s: ListState, m: InteractionMap, loader: Loader,
                          first: Request -> Outcome, second: Request -> Outcome, extract: seq<Row> -> InteractionMap)
    requires first(RequestFor(loader, s)).Loaded?
    requires second(RequestFor(loader, Load(s, m, loader, true, first, extract).0)).Loaded?
    ensures var (s1, m1) := Load(s, m, loader, true, first, extract);
            Load(s1, m1, loader, true, second, extract).0.resources
            == s.resources + first(RequestFor(loader, s)).data + second(RequestFor(loader, s1)).data
  {
  }

  /** A replacing load's rows do not depend on what was loaded before. */
  lemma ReplaceForgetsPrevious(s: ListState, t: ListState, m: InteractionMap, loader: Loader,
                               service: Request -> Outcome, extract: seq<Row> -> InteractionMap)
    requires RequestFor(loader, s) == RequestFor(loader, t)
    requires service(RequestFor(loader, s)).Loaded?
    ensures Load(s, m, loader, false, service, extract).0.resources == Load(t, m, loader, false, service, extract).0.resources
  {
  }

  /** A failed load after a successful one keeps the successful rows and page count. */
  lemma FailureKeepsLastGoodRows(s: ListState, m: InteractionMap, loader: Loader, append: bool,
                                 service: Request -> Outcome, extract: seq<Row> -> InteractionMap)
    requires service(RequestFor(loader, s)).LoadFailed?
    ensures Load(s, m, loader, append, service, extract).0.resources == s.resources
    ensures Load(s, m, loader, append, service, extract).0.totalPages == s.totalPages
    ensures Load(s, m, loader, append, service, extract).0.error == Some(FailureMessage(loader))
  {
  }

  /** The free and paid loaders ignore the filters: only the page reaches the request. */
  lemma FreeAndPaidIgnoreFilters(s: ListState, patch: FilterPatch)
    ensures RequestFor(FreeResources, UpdateFilters(s, patch)) == FreeRequest(1)
    ensures RequestFor(PaidResources, UpdateFilters(s, patch)) == PaidRequest(1)
    ensures RequestFor(AllResources, UpdateFilters(s, patch)) == ListRequest(UpdateFilters(s, patch).filters, 1)
  {
  }
}
