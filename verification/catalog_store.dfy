/**
 * The front end's in-memory catalogue store: a list of resources, a filter
 * state, and the derived `filteredResources` (five optional filters applied
 * one after another, then a stable sort chosen by `sortBy`); plus the
 * framework toggle, filter reset, fresh-id insertion and lookup by id.
 * Dates are integer timestamps and ratings integer keys.
 */
module CatalogStore {
  import opened Wrappers
  import opened Text
  import opened Seqs

  datatype Item = Item(
    id: int,
    title: string,
    description: string,
    url: string,
    rtype: string,
    image: string,
    skillLevel: string,
    tags: seq<string>,
    rating: int,
    votes: int,
    dateAdded: int)

  datatype Filters = Filters(
    sortBy: string,
    rtype: string,
    skillLevel: string,
    frameworks: seq<string>,
    category: string,
    search: string)

  /** The state the store starts in and `clearFilters` returns to. */
  const InitialFilters: Filters := Filters("newest", "all", "all", [], "all", "")

  /** Some tag contains `q` once lower-cased. */
  predicate SomeTagContains(tags: seq<string>, q: string) {
    exists i :: 0 <= i < |tags| && Contains(ToLower(tags[i]), q)
  }

  /** The search match: the lower-cased, untrimmed query inside title, description or a tag. */
  predicate MatchesSearch(search: string, r: Item) {
    var q := ToLower(search);
    Contains(ToLower(r.title), q) || Contains(ToLower(r.description), q) || SomeTagContains(r.tags, q)
  }

  /** The category switch; a category without a case filters nothing. */
  predicate InCategory(category: string, r: Item) {
    if category == "blog" then r.rtype == "website" || r.rtype == "book"
    else if category == "youtube" then r.rtype == "youtube"
    else if category == "twitter" then r.rtype == "twitter"
    else true
  }

  /** Some selected framework is, exactly, one of the tags. */
  predicate UsesFramework(frameworks: seq<string>, r: Item) {
    exists i :: 0 <= i < |frameworks| && frameworks[i] in r.tags
  }

  /** Independent statement of which items survive all five filters. */
  predicate Keep(f: Filters, r: Item) {
    KeepBySearch(f, r) && KeepByAttributes(f, r)
  }

  predicate KeepBySearch(f: Filters, r: Item) {
    && (Trim(f.search) != "" ==> MatchesSearch(f.search, r))
    && (f.category != "all" ==> InCategory(f.category, r))
  }

  predicate KeepByAttributes(f: Filters, r: Item) {
    && (f.rtype != "all" ==> r.rtype == f.rtype)
    && (f.skillLevel != "all" ==> r.skillLevel == f.skillLevel)
    && (|f.frameworks| > 0 ==> UsesFramework(f.frameworks, r))
  }

  /** One conditional filter step: `if (active) result = result.filter(p)`. */
  function Stage(xs: seq<Item>, active: bool, p: Item -> bool): (r: seq<Item>)
    ensures forall x :: multiset(r)[x] == if !active || p(x) then multiset(xs)[x] else 0
  {
    if active then
      assert forall x :: multiset(Filter(xs, p))[x] == if p(x) then multiset(xs)[x] else 0 by {
        forall x { FilterMultiset(xs, p, x); }
      }
      Filter(xs, p)
    else xs
  }

  /** The search and category steps. */
  function KeptBySearch(f: Filters, resources: seq<Item>): (r: seq<Item>)
    ensures forall x :: multiset(r)[x] == if KeepBySearch(f, x) then multiset(resources)[x] else 0
  {
    var s1 := Stage(resources, Trim(f.search) != "", (r: Item) => MatchesSearch(f.search, r));
    Stage(s1, f.category != "all", (r: Item) => InCategory(f.category, r))
  }

  /** The type, skill-level and framework steps. */
  function KeptByAttributes(f: Filters, resources: seq<Item>): (r: seq<Item>)
    ensures forall x :: multiset(r)[x] == if KeepByAttributes(f, x) then multiset(resources)[x] else 0
  {
    var s3 := Stage(resources, f.rtype != "all", (r: Item) => r.rtype == f.rtype);
    var s4 := Stage(s3, f.skillLevel != "all", (r: Item) => r.skillLevel == f.skillLevel);
    Stage(s4, |f.frameworks| > 0, (r: Item) => UsesFramework(f.frameworks, r))
  }

  /** The five filter steps, in the order the store runs them. */
  function Kept(f: Filters, resources: seq<Item>): (r: seq<Item>)
    ensures forall x :: multiset(r)[x] == if Keep(f, x) then multiset(resources)[x] else 0
  {
    KeptByAttributes(f, KeptBySearch(f, resources))
  }

  /**
   * The sort key: the comparator of each `sortBy` case is `key(a) - key(b)`.
   * Unknown values sort like "newest".
   */
  function Key(sortBy: string, r: Item): int {
    if sortBy == "oldest" then r.dateAdded
    else if sortBy == "popular" then -r.votes
    else if sortBy == "rating" then -r.rating
    else -r.dateAdded
  }

  predicate Ordered(sortBy: string, xs: seq<Item>) {
    forall i, j :: 0 <= i < j < |xs| ==> Key(sortBy, xs[i]) <= Key(sortBy, xs[j])
  }

  /** The items whose key is `v`. */
  function HasKey(sortBy: string, v: int): Item -> bool {
    (r: Item) => Key(sortBy, r) == v
  }

  /** No key in `xs` exceeds `bound`. */
  predicate AtMost(sortBy: string, xs: seq<Item>, bound: int) {
    forall i :: 0 <= i < |xs| ==> Key(sortBy, xs[i]) <= bound
  }

  /** Inserts `x` behind every element whose key does not exceed its own. */
  function Insert(sortBy: string, x: Item, xs: seq<Item>): (r: seq<Item>)
    requires Ordered(sortBy, xs)
    ensures Ordered(sortBy, r)
    ensures multiset(r) == multiset(xs) + multiset{x}
    ensures |r| == |xs| + 1
    ensures forall b :: AtMost(sortBy, xs, b) && Key(sortBy, x) <= b ==> AtMost(sortBy, r, b)
  {
    if |xs| == 0 then [x]
    else
      var last := xs[|xs| - 1];
      var init := xs[..|xs| - 1];
      assert xs == init + [last];
      if Key(sortBy, last) <= Key(sortBy, x) then xs + [x]
      else
        assert AtMost(sortBy, init, Key(sortBy, last));
        var r := Insert(sortBy, x, init);
        r + [last]
  }

  /** `Array.prototype.sort` with the key comparator: stable insertion from the left. */
  function Sort(sortBy: string, xs: seq<Item>): (r: seq<Item>)
    ensures Ordered(sortBy, r)
    ensures multiset(r) == multiset(xs)
    ensures |r| == |xs|
  {
    if |xs| == 0 then []
    else
      assert xs == xs[..|xs| - 1] + [xs[|xs| - 1]];
      Insert(sortBy, xs[|xs| - 1], Sort(sortBy, xs[..|xs| - 1]))
  }

  /** Insertion keeps the relative order of equal keys: `x` lands behind its equals. */
  lemma {:induction false} InsertStable(sortBy: string, x: Item, xs: seq<Item>, v: int)
    requires Ordered(sortBy, xs)
    ensures Filter(Insert(sortBy, x, xs), HasKey(sortBy, v))
            == Filter(xs, HasKey(sortBy, v)) + (if Key(sortBy, x) == v then [x] else [])
  {
    var p := HasKey(sortBy, v);
    if |xs| > 0 {
      var last := xs[|xs| - 1];
      var init := xs[..|xs| - 1];
      assert xs == init + [last];
      if Key(sortBy, last) <= Key(sortBy, x) {
        FilterAppend(xs, [x], p);
      } else {
        InsertStable(sortBy, x, init, v);
        InsertStableBehind(sortBy, x, init, last, v);
      }
    }
  }

  /** An item keyed below the last element is inserted somewhere before it. */
  lemma InsertBeforeLast(sortBy: string, x: Item, init: seq<Item>, last: Item)
    requires Ordered(sortBy, init) && Ordered(sortBy, init + [last]) && Key(sortBy, x) < Key(sortBy, last)
    ensures Insert(sortBy, x, init + [last]) == Insert(sortBy, x, init) + [last]
  {
    var xs := init + [last];
    assert xs[..|xs| - 1] == init;
  }

  /** The step of InsertStable where `x` moves in front of the last element. */
  lemma {:induction false} InsertStableBehind(sortBy: string, x: Item, init: seq<Item>, last: Item, v: int)
    requires Ordered(sortBy, init) && Ordered(sortBy, init + [last]) && Key(sortBy, x) < Key(sortBy, last)
    requires Filter(Insert(sortBy, x, init), HasKey(sortBy, v))
             == Filter(init, HasKey(sortBy, v)) + (if Key(sortBy, x) == v then [x] else [])
    ensures Filter(Insert(sortBy, x, init + [last]), HasKey(sortBy, v))
            == Filter(init + [last], HasKey(sortBy, v)) + (if Key(sortBy, x) == v then [x] else [])
  {
    var p := HasKey(sortBy, v);
    InsertBeforeLast(sortBy, x, init, last);
    var r := Insert(sortBy, x, init);
    FilterAppend(init, [last], p);
    FilterAppend(r, [last], p);
    var moved: seq<Item> := if Key(sortBy, x) == v then [x] else [];
    if Key(sortBy, x) == v {
      assert !p(last) && [last][1..] == [];
    }
    SwapAroundEmpty(Filter(init, p), moved, Filter([last], p));
  }

  /** The sort is stable: among equal keys the input order survives. */
  lemma {:induction false} SortStable(sortBy: string, xs: seq<Item>, v: int)
    ensures Filter(Sort(sortBy, xs), HasKey(sortBy, v)) == Filter(xs, HasKey(sortBy, v))
  {
    if |xs| > 0 {
      var init := xs[..|xs| - 1];
      var last := xs[|xs| - 1];
      assert xs == init + [last];
      SortStable(sortBy, init, v);
      InsertStable(sortBy, last, Sort(sortBy, init), v);
      FilterAppend(init, [last], HasKey(sortBy, v));
    }
  }

  /**
   * filteredResources: the kept items, each as often as in the store and no
   * other, ordered by the chosen key, equal keys in store order.
   */
  function FilteredResources(resources: seq<Item>, f: Filters): (r: seq<Item>)
    ensures forall x :: multiset(r)[x] == if Keep(f, x) then multiset(resources)[x] else 0
    ensures forall x :: x in r <==> x in resources && Keep(f, x)
    ensures Ordered(f.sortBy, r)
    ensures forall v :: Filter(r, HasKey(f.sortBy, v)) == Filter(Kept(f, resources), HasKey(f.sortBy, v))
  {
    var kept := Kept(f, resources);
    var r := Sort(f.sortBy, kept);
    assert forall v :: Filter(r, HasKey(f.sortBy, v)) == Filter(kept, HasKey(f.sortBy, v)) by {
      forall v ensures Filter(r, HasKey(f.sortBy, v)) == Filter(kept, HasKey(f.sortBy, v)) {
        SortStable(f.sortBy, kept, v);
      }
    }
    assert forall x :: x in r <==> x in resources && Keep(f, x) by {
      forall x ensures x in r <==> x in resources && Keep(f, x) {
        assert x in r <==> multiset(r)[x] > 0;
        assert x in resources <==> multiset(resources)[x] > 0;
      }
    }
    r
  }

  /** With the filters cleared, every item is listed, newest first. */
  lemma ClearedFiltersListEverything(resources: seq<Item>)
    ensures multiset(FilteredResources(resources, InitialFilters)) == multiset(resources)
    ensures Ordered("newest", FilteredResources(resources, InitialFilters))
  {
    assert Trim("") == "";
    var r := FilteredResources(resources, InitialFilters);
    assert forall x :: multiset(r)[x] == multiset(resources)[x];
  }

  /** A search of only whitespace filters nothing: it lists what an empty search lists. */
  lemma BlankSearchFiltersNothing(resources: seq<Item>, f: Filters)
    requires AllSpace(f.search)
    ensures FilteredResources(resources, f) == FilteredResources(resources, f.(search := ""))
  {
    TrimEmptyIffBlank(f.search);
    assert Trim("") == "";
  }

  /** updateFilter, setSearchQuery and updateFrameworkFilters: one field replaced. */
  datatype FilterUpdate =
    | SetSortBy(sortBy: string) | SetType(rtype: string) | SetSkillLevel(skillLevel: string)
    | SetFrameworks(frameworks: seq<string>) | SetCategory(category: string) | SetSearch(search: string)

  function UpdateFilter(f: Filters, u: FilterUpdate): Filters {
    match u
    case SetSortBy(v) => f.(sortBy := v)
    case SetType(v) => f.(rtype := v)
    case SetSkillLevel(v) => f.(skillLevel := v)
    case SetFrameworks(v) => f.(frameworks := v)
    case SetCategory(v) => f.(category := v)
    case SetSearch(v) => f.(search := v)
  }

  /** clearFilters: back to the initial state whatever the current one. */
  function ClearFilters(f: Filters): (r: Filters)
    ensures r == InitialFilters
  {
    InitialFilters
  }

  /** Clearing forgets any update made before it, and an update changes only its own field. */
  lemma ClearForgetsUpdates(f: Filters, u: FilterUpdate)
    ensures ClearFilters(UpdateFilter(f, u)) == ClearFilters(f)
    ensures UpdateFilter(f, u).sortBy == (if u.SetSortBy? then u.sortBy else f.sortBy)
    ensures UpdateFilter(f, u).search == (if u.SetSearch? then u.search else f.search)
    ensures UpdateFilter(f, u).frameworks == (if u.SetFrameworks? then u.frameworks else f.frameworks)
    ensures UpdateFilter(f, u).category == (if u.SetCategory? then u.category else f.category)
  {
  }

  /** toggleFramework: append the id when absent, otherwise cut out its first occurrence. */
  function ToggleFramework(frameworks: seq<string>, id: string): (r: seq<string>)
    ensures id !in frameworks ==> r == frameworks + [id]
    ensures id in frameworks ==>
      var i := FirstIndex(frameworks, id);
      r == frameworks[..i] + frameworks[i + 1..]
    ensures multiset(r) == if id in frameworks then multiset(frameworks) - multiset{id}
                           else multiset(frameworks) + multiset{id}
  {
    if id in frameworks then RemoveFirst(frameworks, id) else frameworks + [id]
  }

  /** On a duplicate-free list the toggle flips membership of the id and keeps the list duplicate-free. */
  lemma ToggleFlipsMembership(frameworks: seq<string>, id: string)
    requires NoDuplicates(frameworks)
    ensures id in ToggleFramework(frameworks, id) <==> id !in frameworks
    ensures NoDuplicates(ToggleFramework(frameworks, id))
    ensures forall x :: x != id ==> (x in ToggleFramework(frameworks, id) <==> x in frameworks)
  {
    var r := ToggleFramework(frameworks, id);
    if id in frameworks {
      RemoveFirstUnique(frameworks, id);
    } else {
      forall i, j | 0 <= i < j < |r| ensures r[i] != r[j] {
        if j == |frameworks| { assert r[i] in frameworks; }
      }
    }
    forall x | x != id ensures x in r <==> x in frameworks {
      assert x in r <==> multiset(r)[x] > 0;
      assert x in frameworks <==> multiset(frameworks)[x] > 0;
    }
  }

  /** Toggling an absent framework twice restores the list exactly. */
  lemma ToggleTwiceRestoresAbsent(frameworks: seq<string>, id: string)
    requires id !in frameworks
    ensures ToggleFramework(ToggleFramework(frameworks, id), id) == frameworks
  {
    RemoveFirstOfAppended(frameworks, id);
  }

  /** Toggling a present framework twice keeps the same entries but moves the id to the end. */
  lemma ToggleTwiceMovesPresentToEnd(frameworks: seq<string>, id: string)
    requires NoDuplicates(frameworks) && id in frameworks
    ensures ToggleFramework(ToggleFramework(frameworks, id), id) == RemoveFirst(frameworks, id) + [id]
    ensures multiset(ToggleFramework(ToggleFramework(frameworks, id), id)) == multiset(frameworks)
  {
    RemoveFirstUnique(frameworks, id);
  }

  /** So the exact restoration fails for a present id that is not last. */
  lemma ToggleTwiceReordersExample()
    ensures ToggleFramework(ToggleFramework(["react", "vue"], "react"), "react") == ["vue", "react"]
  {
    assert "react" in ["react", "vue"];
    assert FirstIndex(["react", "vue"], "react") == 0;
    assert "react" !in ["vue"];
  }

  /** `Math.max(0, ...ids)`. */
  function MaxId(resources: seq<Item>): (m: int)
    ensures m >= 0
    ensures forall i :: 0 <= i < |resources| ==> resources[i].id <= m
    ensures m == 0 || exists i :: 0 <= i < |resources| && resources[i].id == m
  {
    if |resources| == 0 then 0
    else
      var rest := MaxId(resources[1..]);
      if resources[0].id > rest then resources[0].id else rest
  }

  /**
   * addResource: the next id after the largest (at least 1), fresh votes and
   * rating, the time of adding, appended at the end.
   */
  function AddResource(resources: seq<Item>, r: Item, now: int): (res: (Item, seq<Item>))
    ensures res.1 == resources + [res.0]
    ensures res.0 == r.(id := res.0.id, votes := 0, rating := 0, dateAdded := now)
    ensures res.0.id == MaxId(resources) + 1
    ensures res.0.id >= 1
    ensures forall i :: 0 <= i < |resources| ==> resources[i].id < res.0.id
  {
    var added := r.(id := MaxId(resources) + 1, votes := 0, rating := 0, dateAdded := now);
    (added, resources + [added])
  }

  /** Position of the first item with that id, or the length when there is none. */
  function PositionOf(resources: seq<Item>, id: int): (k: nat)
    ensures k <= |resources|
    ensures forall j :: 0 <= j < k ==> resources[j].id != id
    ensures k < |resources| ==> resources[k].id == id
  {
    if |resources| == 0 then 0
    else if resources[0].id == id then 0
    else 1 + PositionOf(resources[1..], id)
  }

  /** getResourceById: the first item with that id (`Array.prototype.find`). */
  function FindById(resources: seq<Item>, id: int): (r: Option<Item>)
    ensures r.None? <==> forall i :: 0 <= i < |resources| ==> resources[i].id != id
    ensures r.Some? ==> r.value.id == id && r.value == resources[PositionOf(resources, id)]
  {
    var k := PositionOf(resources, id);
    if k < |resources| then Some(resources[k]) else None
  }

  /** An added item is found under its new id, and only it. */
  lemma AddedIsFound(resources: seq<Item>, r: Item, now: int)
    ensures var (added, after) := AddResource(resources, r, now);
            FindById(after, added.id) == Some(added)
  {
    var (added, after) := AddResource(resources, r, now);
    assert after[|resources|] == added;
    assert PositionOf(after, added.id) == |resources|;
  }
}
