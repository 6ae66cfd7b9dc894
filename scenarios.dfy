/** Worked examples over a three-dish catalog: the category, dietary and search
    stages, the untrimmed-query behaviour of the search box, and a lookup
    with a hit, a miss and a repeat that differs in case. */
module Scenarios {
  import opened Text
  import opened Catalog
  import opened HomeScreen
  import opened IngredientScreen

  const GreekSalad: Dish :=
    Dish(1, "Greek Salad", "", "Salads", ["Feta", "Olive"], true, true)
  const CaesarSalad: Dish :=
    Dish(2, "Caesar Salad", "", "Salads", ["Chicken", "Parmesan"], false, true)
  const Tiramisu: Dish :=
    Dish(3, "Tiramisu", "", "Desserts", ["Coffee", "Mascarpone"], true, false)
  const Menu: seq<Dish> := [GreekSalad, CaesarSalad, Tiramisu]

  /** A needle with a character the haystack lacks is not included. */
  lemma MissingChar(hay: string, needle: string, k: int)
    requires 0 <= k < |needle| && needle[k] !in hay
    ensures !Contains(hay, needle)
  {
    if Contains(hay, needle) {
      ContainedCharsOccur(hay, needle, k);
    }
  }

  /** `t` has the character `c` in neither case. */
  predicate Lacks(t: string, c: char)
  {
    c !in t && ('a' <= c <= 'z' ==> (c as int - 'a' as int + 'A' as int) as char !in t)
  }

  /** Lower-casing does not bring in a character the text lacked. */
  lemma AbsentAfterLower(t: string, c: char)
    requires !('A' <= c <= 'Z') && Lacks(t, c)
    ensures c !in Lower(t)
  {
  }

  /** A text that lacks the query's `k`-th character does not include the
      query once both are lower-cased. */
  lemma LacksQuery(t: string, q: string, k: int)
    requires 0 <= k < |q| && !('A' <= q[k] <= 'Z') && Lacks(t, q[k])
    ensures !Contains(Lower(t), Lower(q))
  {
    assert Lower(q)[k] == q[k];
    AbsentAfterLower(t, q[k]);
    MissingChar(Lower(t), Lower(q), k);
  }

  /** The texts the search looks at: name, description, then ingredients. */
  function Texts(d: Dish): seq<string>
  {
    [d.name, d.description] + d.ingredients
  }

  /** A dish each of whose texts lacks some character of the query (the
      `j`-th text lacking character `ks[j]`) is not a search hit. */
  lemma NoHit(d: Dish, q: string, ks: seq<int>)
    requires |ks| == |Texts(d)|
    requires forall j :: 0 <= j < |ks| ==>
      0 <= ks[j] < |q| && !('A' <= q[ks[j]] <= 'Z') && Lacks(Texts(d)[j], q[ks[j]])
    ensures !SearchHit(d, q)
  {
    var t := Texts(d);
    LacksQuery(d.name, q, ks[0]);
    LacksQuery(d.description, q, ks[1]);
    forall i | 0 <= i < |d.ingredients| ensures !Contains(Lower(d.ingredients[i]), Lower(q)) {
      assert t[i + 2] == d.ingredients[i];
      LacksQuery(d.ingredients[i], q, ks[i + 2]);
    }
  }

  /** The reference list of a menu with a given first dish. */
  lemma MatchingCons(d: Dish, rest: seq<Dish>, c: Criteria)
    ensures Matching([d] + rest, c) == (if Admits(c, d) then [d] else []) + Matching(rest, c)
  {
    assert ([d] + rest)[1..] == rest;
  }

  /** The reference list of a three-dish menu, from what each dish passes. */
  lemma MatchingThree(x: Dish, y: Dish, z: Dish, c: Criteria)
    ensures Matching([x, y, z], c)
         == (if Admits(c, x) then [x] else [])
          + (if Admits(c, y) then [y] else [])
          + (if Admits(c, z) then [z] else [])
  {
    MatchingCons(z, [], c);
    MatchingCons(y, [z], c);
    MatchingCons(x, [y, z], c);
    assert [x, y, z] == [x] + ([y] + [z]);
  }

  /** The `Salads` tab shows both salads, in menu order. */
  lemma SaladsTab()
    ensures Matching(Menu, Criteria("", "Salads", false, false)) == [GreekSalad, CaesarSalad]
  {
    assert Trim("") == "";
    MatchingThree(GreekSalad, CaesarSalad, Tiramisu, Criteria("", "Salads", false, false));
  }

  /** Adding the vegetarian toggle to the `Salads` tab leaves the Greek salad. */
  lemma VegetarianSalads()
    ensures Matching(Menu, Criteria("", "Salads", true, false)) == [GreekSalad]
  {
    assert Trim("") == "";
    MatchingThree(GreekSalad, CaesarSalad, Tiramisu, Criteria("", "Salads", true, false));
  }

  /** A tab no dish belongs to shows nothing. */
  lemma EmptyTab()
    ensures Matching(Menu, Criteria("", "Appetizers", false, false)) == []
  {
    assert Trim("") == "";
    MatchingThree(GreekSalad, CaesarSalad, Tiramisu, Criteria("", "Appetizers", false, false));
  }

  /** The Greek salad lists feta. */
  lemma GreekSaladHasFeta()
    ensures SearchHit(GreekSalad, "feta")
  {
    assert Lower("feta") == "feta";
    assert Lower("Feta") == "feta";
    ContainsSelfAndEmpty("feta");
    assert Contains(Lower(GreekSalad.ingredients[0]), Lower("feta"));
  }

  /** None of the Caesar salad's texts has an f. */
  lemma CaesarSaladLacksFeta()
    ensures !SearchHit(CaesarSalad, "feta")
  {
    NoHit(CaesarSalad, "feta", [0, 0, 0, 0]);
  }

  /** The tiramisu's texts lack an f, except the coffee, which lacks an a. */
  lemma TiramisuLacksFeta()
    ensures !SearchHit(Tiramisu, "feta")
  {
    NoHit(Tiramisu, "feta", [0, 0, 3, 0]);
  }

  /** Searching "feta" finds the Greek salad through its ingredient list. */
  lemma SearchByIngredient()
    ensures Matching(Menu, Criteria("feta", All, false, false)) == [GreekSalad]
  {
    assert "feta"[0] == 'f' && !IsWhitespace('f');
    TrimEmptyIffBlank("feta");
    GreekSaladHasFeta();
    CaesarSaladLacksFeta();
    TiramisuLacksFeta();
    MatchingThree(GreekSalad, CaesarSalad, Tiramisu, Criteria("feta", All, false, false));
  }

  const Feta: Dish := Dish(5, "Feta", "", "Appetizers", [], true, true)

  /** The dish named Feta is a hit for "feta". */
  lemma FetaNamesFeta()
    ensures SearchHit(Feta, "feta")
  {
    assert Lower("feta") == "feta";
    assert Lower("Feta") == "feta";
    ContainsSelfAndEmpty("feta");
    assert Contains(Lower(Feta.name), Lower("feta"));
  }

  /** "feta" finds the dish named Feta. */
  lemma PlainQueryFindsFeta()
    ensures Matching([Feta], Criteria("feta", All, false, false)) == [Feta]
  {
    assert "feta"[0] == 'f' && !IsWhitespace('f');
    TrimEmptyIffBlank("feta");
    FetaNamesFeta();
    MatchingCons(Feta, [], Criteria("feta", All, false, false));
  }

  /** " feta" is not blank, so it switches the search stage on. */
  lemma PaddedQueryIsActive()
    ensures SearchActive(" feta")
  {
    assert " feta"[1] == 'f' && !IsWhitespace('f');
    TrimEmptyIffBlank(" feta");
  }

  /** A one-dish menu shows nothing under criteria that do not admit it. */
  lemma NotAdmitted(d: Dish, c: Criteria)
    requires !Admits(c, d)
    ensures Matching([d], c) == []
  {
    MatchingCons(d, [], c);
  }

  /** The dish named Feta has no space anywhere, so " feta" misses it. */
  lemma FetaLacksPaddedQuery()
    ensures !SearchHit(Feta, " feta")
  {
    NoHit(Feta, " feta", [0, 0]);
  }

  /** A leading space switches the search stage on but is still part of the
      text searched for: " feta" does not find the dish named Feta, although
      "feta" does. */
  lemma LeadingSpaceIsSearched()
    ensures SearchActive(" feta")
    ensures Matching([Feta], Criteria(" feta", All, false, false)) == []
  {
    PaddedQueryIsActive();
    FetaLacksPaddedQuery();
    NotAdmitted(Feta, Criteria(" feta", All, false, false));
  }

  const FetaRecord: Ingredient := Ingredient("Feta", "Dairy", "Brined cheese", ["milk"], true, true)

  /** Lookups against a catalog holding only feta. */
  lemma FetaLookups()
    ensures ResolveName([FetaRecord], "Feta") == FetaRecord
    ensures ResolveName([FetaRecord], "feta") == FetaRecord
    ensures ResolveName([FetaRecord], "Mystery Sauce") == Fallback("Mystery Sauce")
  {
    assert Lower("Feta") == "feta" && Lower("feta") == "feta";
    assert |Lower("Mystery Sauce")| == 13;
  }

  /** The lookup of a dish with three listed ingredients, name by name. */
  lemma ResolveThree(d: Dish, catalog: seq<Ingredient>)
    requires |d.ingredients| == 3
    ensures Resolve(d, catalog)
         == [ResolveName(catalog, d.ingredients[0]), ResolveName(catalog, d.ingredients[1]),
             ResolveName(catalog, d.ingredients[2])]
  {
  }

  const Mezze: Dish := Dish(4, "Mezze", "", "Appetizers", ["Feta", "Mystery Sauce", "feta"], true, true)

  /** ["Feta", "Mystery Sauce", "feta"] against a catalog holding only feta:
      three entries, the middle one synthesised, the last one found despite
      its case. */
  lemma LookupWithMissAndRepeat()
    ensures Resolve(Mezze, [FetaRecord]) == [FetaRecord, Fallback("Mystery Sauce"), FetaRecord]
  {
    FetaLookups();
    ResolveThree(Mezze, [FetaRecord]);
  }
}
