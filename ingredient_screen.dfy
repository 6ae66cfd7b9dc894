/** The ingredient screen's lookup: each ingredient name of the selected dish
    is joined against the ingredient catalog, with a fixed stand-in record
    for names the catalog does not know. */
module IngredientScreen {
  import opened Text
  import opened Catalog

  datatype Option<T> = None | Some(value: T)

  /** The fields of the stand-in record. */
  const UnknownCategory: string := "Unknown"
  const UnavailableDescription: string := "Ingredient information not available"
  const UnknownAllergens: seq<string> := ["unknown"]

  /** The allergen list that means "no allergens". */
  const NoAllergens: string := "none"

  /** A catalog record is the one for `ingredientName` when the two names
      agree after lower-casing. */
  predicate NameMatches(record: Ingredient, ingredientName: string)
  {
    Lower(record.name) == Lower(ingredientName)
  }

  /** `Array.prototype.find` over the catalog, as a position: the first record
      whose name matches, or nothing when none does. */
  function FindFirst(catalog: seq<Ingredient>, ingredientName: string): (r: Option<nat>)
    ensures r.Some? ==> r.value < |catalog| && NameMatches(catalog[r.value], ingredientName)
    ensures r.Some? ==> forall j :: 0 <= j < r.value ==> !NameMatches(catalog[j], ingredientName)
    ensures r.None? <==> forall j :: 0 <= j < |catalog| ==> !NameMatches(catalog[j], ingredientName)
  {
    if catalog == [] then None
    else if NameMatches(catalog[0], ingredientName) then Some(0)
    else match FindFirst(catalog[1..], ingredientName)
      case None => None
      case Some(k) => Some(k + 1)
  }

  /** The record synthesised for a name the catalog does not know: the name
      as the dish spells it, and permissive dietary flags. */
  function Fallback(ingredientName: string): Ingredient
  {
    Ingredient(ingredientName, UnknownCategory, UnavailableDescription, UnknownAllergens, true, true)
  }

  /** `find(...) || {fallback}` for one ingredient name. */
  function ResolveName(catalog: seq<Ingredient>, ingredientName: string): (r: Ingredient)
    ensures (exists j :: 0 <= j < |catalog| && NameMatches(catalog[j], ingredientName))
      ==> r in catalog && NameMatches(r, ingredientName)
    ensures (forall j :: 0 <= j < |catalog| ==> !NameMatches(catalog[j], ingredientName))
      ==> r == Fallback(ingredientName)
  {
    match FindFirst(catalog, ingredientName)
    case Some(k) => catalog[k]
    case None => Fallback(ingredientName)
  }

  /** `dish.ingredients.map(...)`: one record per listed ingredient name, in
      the dish's order and with repeats kept; every record carries the name
      it was looked up by, up to case. */
  function Resolve(dish: Dish, catalog: seq<Ingredient>): (r: seq<Ingredient>)
    ensures |r| == |dish.ingredients|
    ensures forall i :: 0 <= i < |r| ==> Lower(r[i].name) == Lower(dish.ingredients[i])
  {
    seq(|dish.ingredients|, i requires 0 <= i < |dish.ingredients| => ResolveName(catalog, dish.ingredients[i]))
  }

  /** A listed name that the catalog knows resolves to the first matching
      catalog record, in catalog order. */
  lemma ResolvesToFirstMatch(dish: Dish, catalog: seq<Ingredient>, i: int, j: int)
    requires 0 <= i < |dish.ingredients| && 0 <= j < |catalog|
    requires NameMatches(catalog[j], dish.ingredients[i])
    requires forall k :: 0 <= k < j ==> !NameMatches(catalog[k], dish.ingredients[i])
    ensures Resolve(dish, catalog)[i] == catalog[j]
  {
    match FindFirst(catalog, dish.ingredients[i])
    case Some(k) =>
      assert !(k < j) && !(j < k);
    case None =>
      assert false;
  }

  /** A listed name that the catalog does not know resolves to the stand-in:
      its own spelling, category `Unknown`, the placeholder description,
      allergens `["unknown"]`, and both dietary flags set. */
  lemma ResolvesToFallback(dish: Dish, catalog: seq<Ingredient>, i: int)
    requires 0 <= i < |dish.ingredients|
    requires forall j :: 0 <= j < |catalog| ==> !NameMatches(catalog[j], dish.ingredients[i])
    ensures var r := Resolve(dish, catalog)[i];
      && r.name == dish.ingredients[i]
      && r.category == "Unknown"
      && r.description == "Ingredient information not available"
      && r.allergens == ["unknown"]
      && r.isVegetarian && r.isGlutenFree
  {
  }

  /** Lookup sees only the lower-cased name: names equal up to case find the
      same position. */
  lemma {:induction false} FindFirstIgnoresCase(catalog: seq<Ingredient>, a: string, b: string)
    requires Lower(a) == Lower(b)
    ensures FindFirst(catalog, a) == FindFirst(catalog, b)
  {
    if catalog != [] {
      FindFirstIgnoresCase(catalog[1..], a, b);
    }
  }

  /** Two names that differ only in case resolve to the same catalog record
      when the catalog knows either of them. */
  lemma SameRecordUpToCase(catalog: seq<Ingredient>, a: string, b: string, j: int)
    requires Lower(a) == Lower(b)
    requires 0 <= j < |catalog| && NameMatches(catalog[j], a)
    ensures ResolveName(catalog, a) == ResolveName(catalog, b)
    ensures ResolveName(catalog, a) in catalog
  {
    FindFirstIgnoresCase(catalog, a, b);
  }

  /** The allergen section is drawn when the list is non-empty and does not
      start with the "none" sentinel. */
  predicate ShowsAllergens(record: Ingredient)
  {
    |record.allergens| > 0 && record.allergens[0] != NoAllergens
  }

  /** For a resolved entry the allergen section is always drawn for a
      stand-in record, and for a catalog record exactly when that record's
      own list is shown. */
  lemma ResolvedAllergenVisibility(dish: Dish, catalog: seq<Ingredient>, i: int)
    requires 0 <= i < |dish.ingredients|
    ensures var r := Resolve(dish, catalog)[i];
      ShowsAllergens(r) <==>
        match FindFirst(catalog, dish.ingredients[i])
        case Some(k) => |catalog[k].allergens| > 0 && catalog[k].allergens[0] != "none"
        case None => true
  {
  }

  /** The count in the "Ingredients (n)" header once the lookup has run. */
  function DisplayedCount(dish: Dish, catalog: seq<Ingredient>): (n: nat)
    ensures n == |dish.ingredients|
  {
    |Resolve(dish, catalog)|
  }
}
