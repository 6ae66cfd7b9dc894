/** The home screen's dish filter: a free-text search, a category tab and
    two dietary toggles, applied one after the other to the dish catalog. */
module HomeScreen {
  import opened Text
  import opened Seqs
  import opened Catalog

  /** The category tab that switches the category stage off. */
  const All: string := "All"

  /** The screen's filter state: the search box, the selected category tab
      and the two toggles. */
  datatype Criteria = Criteria(
    searchQuery: string,
    activeCategory: string,
    vegetarianFilter: bool,
    glutenFreeFilter: bool)

  /** The criteria the screen starts with: nothing typed, the `All` tab and
      both toggles off. */
  const Initial: Criteria := Criteria("", All, false, false)

  /** The search stage runs when the query, trimmed, is non-empty, that is
      when it holds at least one non-whitespace character. */
  predicate SearchActive(searchQuery: string): (r: bool)
    ensures r <==> !IsBlank(searchQuery)
  {
    TrimEmptyIffBlank(searchQuery);
    Trim(searchQuery) != ""
  }

  /** The search test on one dish. The query is lower-cased but NOT trimmed:
      trimming only decides whether the stage runs. */
  predicate SearchHit(d: Dish, searchQuery: string)
  {
    var q := Lower(searchQuery);
    || Contains(Lower(d.name), q)
    || Contains(Lower(d.description), q)
    || exists i :: 0 <= i < |d.ingredients| && Contains(Lower(d.ingredients[i]), q)
  }

  /** What each stage demands of a dish: nothing when the stage is off. */
  predicate SearchStage(c: Criteria, d: Dish)
  {
    SearchActive(c.searchQuery) ==> SearchHit(d, c.searchQuery)
  }

  predicate CategoryStage(c: Criteria, d: Dish)
  {
    c.activeCategory != All ==> d.category == c.activeCategory
  }

  predicate VegetarianStage(c: Criteria, d: Dish)
  {
    c.vegetarianFilter ==> d.isVegetarian
  }

  predicate GlutenFreeStage(c: Criteria, d: Dish)
  {
    c.glutenFreeFilter ==> d.isGlutenFree
  }

  /** A dish is shown when it meets every active criterion. */
  predicate Admits(c: Criteria, d: Dish)
  {
    SearchStage(c, d) && CategoryStage(c, d) && VegetarianStage(c, d) && GlutenFreeStage(c, d)
  }

  /** Reference definition of the list shown: the admitted dishes, in catalog
      order, computed in one pass with the conjunction of all criteria. */
  function Matching(dishes: seq<Dish>, c: Criteria): seq<Dish>
  {
    if dishes == [] then []
    else if Admits(c, dishes[0]) then [dishes[0]] + Matching(dishes[1..], c)
    else Matching(dishes[1..], c)
  }

  /** `filterDishes`: start from the whole catalog and narrow it stage by
      stage, each stage a filter pass guarded by its criterion. The result is
      the reference list, so the sequential stages act as one conjunction. */
  method FilterDishes(dishes: seq<Dish>, c: Criteria) returns (filtered: seq<Dish>)
    ensures filtered == Matching(dishes, c)
  {
    ghost var none: Dish -> bool := d => true;
    ghost var upToSearch: Dish -> bool := d => SearchStage(c, d);
    ghost var upToCategory: Dish -> bool := d => upToSearch(d) && CategoryStage(c, d);
    ghost var upToVegetarian: Dish -> bool := d => upToCategory(d) && VegetarianStage(c, d);
    ghost var admits: Dish -> bool := d => upToVegetarian(d) && GlutenFreeStage(c, d);
    ghost var before: seq<Dish>;

    filtered := dishes;
    FilterAllPass(dishes, none);

    before := filtered;
    var hit := (d: Dish) => SearchHit(d, c.searchQuery);
    if SearchActive(c.searchQuery) {
      filtered := Keep(filtered, hit);
    }
    GuardedStage(dishes, none, hit, SearchActive(c.searchQuery), upToSearch, before, filtered);

    before := filtered;
    var inCategory := (d: Dish) => d.category == c.activeCategory;
    if c.activeCategory != All {
      filtered := Keep(filtered, inCategory);
    }
    GuardedStage(dishes, upToSearch, inCategory, c.activeCategory != All, upToCategory, before, filtered);

    before := filtered;
    var vegetarian := (d: Dish) => d.isVegetarian;
    if c.vegetarianFilter {
      filtered := Keep(filtered, vegetarian);
    }
    GuardedStage(dishes, upToCategory, vegetarian, c.vegetarianFilter, upToVegetarian, before, filtered);

    before := filtered;
    var glutenFree := (d: Dish) => d.isGlutenFree;
    if c.glutenFreeFilter {
      filtered := Keep(filtered, glutenFree);
    }
    GuardedStage(dishes, upToVegetarian, glutenFree, c.glutenFreeFilter, admits, before, filtered);
    MatchingIsFilter(dishes, c, admits);
  }

  /** The reference list is a filter by any predicate that agrees with
      `Admits` on the catalog. */
  lemma {:induction false} MatchingIsFilter(dishes: seq<Dish>, c: Criteria, p: Dish -> bool)
    requires forall i :: 0 <= i < |dishes| ==> p(dishes[i]) == Admits(c, dishes[i])
    ensures Matching(dishes, c) == Filter(dishes, p)
  {
    if dishes != [] {
      MatchingIsFilter(dishes[1..], c, p);
    }
  }

  /** A dish is in the result exactly when it is in the catalog and meets
      every active criterion. */
  lemma MatchingMembership(dishes: seq<Dish>, c: Criteria, d: Dish)
    ensures d in Matching(dishes, c) <==> d in dishes && Admits(c, d)
  {
    var admits := (x: Dish) => Admits(c, x);
    MatchingIsFilter(dishes, c, admits);
    if d in dishes && Admits(c, d) {
      var i :| 0 <= i < |dishes| && dishes[i] == d;
      assert admits(dishes[i]);
    }
  }

  /** The result keeps catalog order and repeats nothing: it is a
      subsequence of the catalog, and each dish occurs in it as often as in
      the catalog when admitted and not at all otherwise. */
  lemma MatchingIsStableSubsequence(dishes: seq<Dish>, c: Criteria, d: Dish)
    ensures IsSubsequence(Matching(dishes, c), dishes)
    ensures multiset(Matching(dishes, c))[d] == if Admits(c, d) then multiset(dishes)[d] else 0
  {
    var admits := (x: Dish) => Admits(c, x);
    MatchingIsFilter(dishes, c, admits);
    FilterIsSubsequence(dishes, admits);
    FilterMultiset(dishes, admits, d);
  }

  /** Every dish shown satisfies each criterion that is switched on: the
      untrimmed, lower-cased query occurs in its name, description or one of
      its ingredients; its category is the tab's, compared exactly; and it
      has each dietary flag that is toggled on. */
  lemma {:induction false} ResultsMeetActiveCriteria(dishes: seq<Dish>, c: Criteria)
    ensures forall i :: 0 <= i < |Matching(dishes, c)| ==>
      var d := Matching(dishes, c)[i];
      && (SearchActive(c.searchQuery) ==> SearchHit(d, c.searchQuery))
      && (c.activeCategory != All ==> d.category == c.activeCategory)
      && (c.vegetarianFilter ==> d.isVegetarian)
      && (c.glutenFreeFilter ==> d.isGlutenFree)
  {
    if dishes != [] {
      ResultsMeetActiveCriteria(dishes[1..], c);
    }
  }

  /** A blank query, the `All` tab and both toggles off show the whole
      catalog, unchanged. */
  lemma {:induction false} NeutralCriteriaShowAll(dishes: seq<Dish>, c: Criteria)
    requires IsBlank(c.searchQuery) && c.activeCategory == All
    requires !c.vegetarianFilter && !c.glutenFreeFilter
    ensures Matching(dishes, c) == dishes
  {
    TrimEmptyIffBlank(c.searchQuery);
    if dishes != [] {
      NeutralCriteriaShowAll(dishes[1..], c);
    }
  }

  /** The list the screen starts with, the whole catalog, is the one the
      filter computes for the initial criteria. */
  lemma InitialListIsFiltered(dishes: seq<Dish>)
    ensures Matching(dishes, Initial) == dishes
  {
    NeutralCriteriaShowAll(dishes, Initial);
  }

  /** Criteria that admit no more dishes than others give a subsequence of
      the others' result, never a longer list. */
  lemma StricterCriteriaNarrow(dishes: seq<Dish>, strict: Criteria, loose: Criteria)
    requires forall d :: Admits(strict, d) ==> Admits(loose, d)
    ensures IsSubsequence(Matching(dishes, strict), Matching(dishes, loose))
    ensures |Matching(dishes, strict)| <= |Matching(dishes, loose)|
  {
    var s := (x: Dish) => Admits(strict, x);
    var l := (x: Dish) => Admits(loose, x);
    MatchingIsFilter(dishes, strict, s);
    MatchingIsFilter(dishes, loose, l);
    FilterStronger(dishes, s, l);
  }

  /** Switching the vegetarian toggle on never lengthens the list. */
  lemma VegetarianToggleNarrows(dishes: seq<Dish>, c: Criteria)
    ensures IsSubsequence(Matching(dishes, c.(vegetarianFilter := true)), Matching(dishes, c))
    ensures |Matching(dishes, c.(vegetarianFilter := true))| <= |Matching(dishes, c)|
  {
    StricterCriteriaNarrow(dishes, c.(vegetarianFilter := true), c);
  }

  /** Switching the gluten-free toggle on never lengthens the list. */
  lemma GlutenFreeToggleNarrows(dishes: seq<Dish>, c: Criteria)
    ensures IsSubsequence(Matching(dishes, c.(glutenFreeFilter := true)), Matching(dishes, c))
    ensures |Matching(dishes, c.(glutenFreeFilter := true))| <= |Matching(dishes, c)|
  {
    StricterCriteriaNarrow(dishes, c.(glutenFreeFilter := true), c);
  }

  /** Moving from the `All` tab to any other tab never lengthens the list. */
  lemma CategoryTabNarrows(dishes: seq<Dish>, c: Criteria, category: string)
    requires c.activeCategory == All
    ensures IsSubsequence(Matching(dishes, c.(activeCategory := category)), Matching(dishes, c))
    ensures |Matching(dishes, c.(activeCategory := category))| <= |Matching(dishes, c)|
  {
    StricterCriteriaNarrow(dishes, c.(activeCategory := category), c);
  }
}
