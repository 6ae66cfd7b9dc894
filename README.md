# Party menu: dish filter and ingredient lookup

This project models the two pieces of logic in the Party Menu mobile app.

- **Dish filter.** The home screen's `filterDishes` starts from the dish catalog and narrows it in four guarded stages:
  - a case-insensitive text search over name, description and ingredient names;
  - a category tab (`All` disables it);
  - a vegetarian toggle;
  - a gluten-free toggle.
- **Ingredient lookup.** The ingredient screen maps each ingredient name of the selected dish to the first catalog record whose name matches it case-insensitively. It builds a fixed stand-in record when nothing matches. It also decides whether an ingredient's allergen list is drawn.

Modules:

- `Text` (`text.dfy`): `toLowerCase` on ASCII letters (`Lower`), `includes` (`Contains`), and `trim` (`Trim`) with the ECMAScript whitespace and line-terminator set.
- `Seqs` (`seqs.dfy`): `Array.prototype.filter`. `Filter` is the specification function. `Keep` is the loop that computes it. The lemmas cover order-preserving subsequences, multiplicities, and how two filter passes combine.
- `Catalog` (`catalog.dfy`): the `Dish` and `Ingredient` records.
- `HomeScreen` (`home_screen.dfy`): `FilterDishes` reassigns a local `seq` stage by stage, like the source. It is proved equal to `Matching`, a one-pass reference definition over the conjunction `Admits` of all active criteria. The listed properties are proved as lemmas about `Matching`.
- `IngredientScreen` (`ingredient_screen.dfy`): `FindFirst` (`find`), `ResolveName` (`find(...) || fallback`), `Resolve` (`map`), `ShowsAllergens` and `DisplayedCount`.
- `Scenarios` (`scenarios.dfy`): worked examples on a three-dish menu and a one-record ingredient catalog.

The catalogs are immutable Dafny sequences, so neither engine can change its input: each filter stage computes a new sequence.

Two details of the source shape the model:

- **Search query.** Trimming at `HomeScreen.js:34` only decides whether the search stage runs. Lines 37-40 search for the untrimmed, lower-cased query, so `" feta"` does not find a dish named `Feta` (`Scenarios.LeadingSpaceIsSearched`).
- **Allergen list.** `IngredientScreen.js:55` tests only the first element, so any list that starts with `"none"` hides the allergen section (`ShowsAllergens`).

## Model

| member | source | states |
|---|---|---|
| `Text.LowerChar` | PartyMenuNative/src/screens/IngredientScreen.js:20 | one character lower-cased: each ASCII capital becomes its own lower-case letter (same offset from `a` as from `A`), every other character is unchanged, and no capital remains |
| `Text.Lower` | PartyMenuNative/src/src/screens/HomeScreen.js:37-40 | lower-casing keeps the length and maps each character on its own: ASCII capitals to lower case, everything else unchanged |
| `Text.LowerIdempotent` | PartyMenuNative/src/screens/IngredientScreen.js:20 | lower-casing an already lower-cased name changes nothing, so it is a normaliser |
| `Text.Contains` | PartyMenuNative/src/src/screens/HomeScreen.js:37-40 | `includes`; its meaning, an occurrence at some position, is stated by `Text.ContainsIffOccurs` |
| `Text.ContainsIffOccurs` | PartyMenuNative/src/src/screens/HomeScreen.js:37-40 | `includes` holds exactly when the needle occurs at some position of the haystack |
| `Text.ContainedCharsOccur` | PartyMenuNative/src/src/screens/HomeScreen.js:37-40 | every character of an included needle occurs in the haystack |
| `Text.ContainsSelfAndEmpty` | PartyMenuNative/src/src/screens/HomeScreen.js:37-40 | every string includes itself and the empty string |
| `Text.TrimStart` | PartyMenuNative/src/src/screens/HomeScreen.js:34 | the result is a suffix that does not start with whitespace, and only whitespace was removed |
| `Text.TrimEnd` | PartyMenuNative/src/src/screens/HomeScreen.js:34 | the result is a prefix that does not end with whitespace, and only whitespace was removed |
| `Text.Trim` | PartyMenuNative/src/src/screens/HomeScreen.js:34 | `trim` returns a slice of the input with blank text on both sides, and the slice has no whitespace at either end |
| `Text.TrimEmptyIffBlank` | PartyMenuNative/src/src/screens/HomeScreen.js:34 | the trimmed query is empty (falsy) exactly when the query is all whitespace |
| `Seqs.Filter` | PartyMenuNative/src/src/screens/HomeScreen.js:35-57 | a filter keeps only elements of the input that pass, keeps every element that passes, and never grows |
| `Seqs.Keep` | PartyMenuNative/src/src/screens/HomeScreen.js:35-57 | the loop of `Array.prototype.filter` computes exactly `Filter` |
| `Seqs.FilterAppend` | PartyMenuNative/src/src/screens/HomeScreen.js:35-57 | filtering distributes over concatenation |
| `Seqs.FilterMultiset` | PartyMenuNative/src/src/screens/HomeScreen.js:35-57 | each element occurs in the result as often as in the input when it passes, and not at all otherwise (no duplication) |
| `Seqs.FilterIsSubsequence` | PartyMenuNative/src/src/screens/HomeScreen.js:35-57 | the result is the input with some elements deleted and the rest in their original order |
| `Seqs.FilterAllPass` | PartyMenuNative/src/src/screens/HomeScreen.js:31-57 | a filter every element passes returns the input unchanged |
| `Seqs.FilterSamePredicate` | PartyMenuNative/src/src/screens/HomeScreen.js:35-57 | the filter depends only on the predicate's values on the input |
| `Seqs.FilterFilter` | PartyMenuNative/src/src/screens/HomeScreen.js:35-57 | two filter passes in a row equal one pass with the conjunction |
| `Seqs.GuardedStage` | PartyMenuNative/src/src/screens/HomeScreen.js:34-58 | a stage applied only when its guard holds extends the running conjunction by "guard implies test" |
| `Seqs.FilterCommute` | PartyMenuNative/src/src/screens/HomeScreen.js:34-58 | the order of two filter passes does not change the result |
| `Seqs.FilterStronger` | PartyMenuNative/src/src/screens/HomeScreen.js:46-58 | filtering by a stronger predicate yields a subsequence of the weaker predicate's result, never longer |
| `HomeScreen.SearchActive` | PartyMenuNative/src/src/screens/HomeScreen.js:34 | the search stage runs exactly when the query holds a non-whitespace character |
| `HomeScreen.SearchHit` | PartyMenuNative/src/src/screens/HomeScreen.js:36-41 | the per-dish search test on name, description and ingredients; `HomeScreen.ResultsMeetActiveCriteria` states it of every dish shown and `Scenarios.SearchByIngredient` exercises it |
| `HomeScreen.FilterDishes` | PartyMenuNative/src/src/screens/HomeScreen.js:30-61 | the four guarded stages, run in source order, give exactly the dishes admitted by the conjunction of the active criteria, in catalog order |
| `HomeScreen.MatchingIsFilter` | PartyMenuNative/src/src/screens/HomeScreen.js:34-58 | the one-pass reference list equals a filter by any predicate that agrees with the conjunction on the catalog |
| `HomeScreen.MatchingMembership` | PartyMenuNative/src/src/screens/HomeScreen.js:34-58 | a dish is shown if and only if it is in the catalog and meets every active criterion |
| `HomeScreen.MatchingIsStableSubsequence` | PartyMenuNative/src/src/screens/HomeScreen.js:31-57 | the result is an order-preserving subsequence of the catalog, and admitted dishes keep their multiplicity |
| `HomeScreen.ResultsMeetActiveCriteria` | PartyMenuNative/src/src/screens/HomeScreen.js:34-58 | every dish shown meets each active criterion: the untrimmed lower-cased query occurs in its lower-cased name, description or some ingredient; its category equals the tab exactly; each toggled dietary flag is set |
| `HomeScreen.NeutralCriteriaShowAll` | PartyMenuNative/src/src/screens/HomeScreen.js:34-56 | a blank query, the `All` tab and both toggles off return the catalog unchanged |
| `HomeScreen.InitialListIsFiltered` | PartyMenuNative/src/src/screens/HomeScreen.js:17-22 | the whole catalog, shown before any filtering, is what the filter computes for the initial criteria |
| `HomeScreen.StricterCriteriaNarrow` | PartyMenuNative/src/src/screens/HomeScreen.js:46-58 | criteria that admit fewer dishes give a subsequence of the looser result, never longer |
| `HomeScreen.VegetarianToggleNarrows` | PartyMenuNative/src/src/screens/HomeScreen.js:51-53 | switching the vegetarian toggle on never lengthens the list, and the new list is a subsequence of the old |
| `HomeScreen.GlutenFreeToggleNarrows` | PartyMenuNative/src/src/screens/HomeScreen.js:56-58 | switching the gluten-free toggle on never lengthens the list, and the new list is a subsequence of the old |
| `HomeScreen.CategoryTabNarrows` | PartyMenuNative/src/src/screens/HomeScreen.js:46-48 | moving from `All` to any category never lengthens the list, and the new list is a subsequence of the old |
| `IngredientScreen.FindFirst` | PartyMenuNative/src/screens/IngredientScreen.js:19-21 | `find` returns the first catalog position whose name matches case-insensitively, or nothing exactly when no record matches |
| `IngredientScreen.Fallback` | PartyMenuNative/src/screens/IngredientScreen.js:21-28 | the stand-in record; its fields are stated by `IngredientScreen.ResolvesToFallback` |
| `IngredientScreen.ResolveName` | PartyMenuNative/src/screens/IngredientScreen.js:19-28 | a name the catalog knows resolves to a catalog record with that name up to case; a name it does not know resolves to the stand-in |
| `IngredientScreen.Resolve` | PartyMenuNative/src/screens/IngredientScreen.js:18-29 | one record per listed name, in order with repeats, each carrying its lookup name up to case |
| `IngredientScreen.ResolvesToFirstMatch` | PartyMenuNative/src/screens/IngredientScreen.js:19-20 | a name the catalog knows resolves to the first matching record in catalog order |
| `IngredientScreen.ResolvesToFallback` | PartyMenuNative/src/screens/IngredientScreen.js:21-28 | an unknown name resolves to the stand-in: its own spelling, `Unknown`, the placeholder description, `["unknown"]`, vegetarian and gluten-free |
| `IngredientScreen.FindFirstIgnoresCase` | PartyMenuNative/src/screens/IngredientScreen.js:20 | names equal up to case find the same catalog position |
| `IngredientScreen.SameRecordUpToCase` | PartyMenuNative/src/screens/IngredientScreen.js:19-20 | names that differ only in case resolve to the same catalog record when one matches |
| `IngredientScreen.ResolvedAllergenVisibility` | PartyMenuNative/src/screens/IngredientScreen.js:55 | the allergen section of a resolved entry is always drawn for a stand-in; for a catalog record it is drawn exactly when the list is non-empty and does not start with `none` |
| `IngredientScreen.ShowsAllergens` | PartyMenuNative/src/screens/IngredientScreen.js:55 | the allergen guard: a non-empty list whose first element is not `none`; `IngredientScreen.ResolvedAllergenVisibility` states it for every resolved entry |
| `IngredientScreen.DisplayedCount` | PartyMenuNative/src/screens/IngredientScreen.js:88 | the header count equals the number of names the dish lists |
| `Scenarios.SaladsTab` | PartyMenuNative/src/src/screens/HomeScreen.js:46-48 | the `Salads` tab shows both salads in menu order |
| `Scenarios.VegetarianSalads` | PartyMenuNative/src/src/screens/HomeScreen.js:46-53 | `Salads` plus the vegetarian toggle shows only the Greek salad |
| `Scenarios.EmptyTab` | PartyMenuNative/src/src/screens/HomeScreen.js:46-48 | a tab no dish belongs to shows nothing |
| `Scenarios.SearchByIngredient` | PartyMenuNative/src/src/screens/HomeScreen.js:34-42 | "feta" finds the Greek salad through its ingredient list and nothing else |
| `Scenarios.PlainQueryFindsFeta` | PartyMenuNative/src/src/screens/HomeScreen.js:34-40 | "feta" finds the dish named Feta, its name matching regardless of case |
| `Scenarios.NotAdmitted` | PartyMenuNative/src/src/screens/HomeScreen.js:34-58 | a dish that fails some active criterion is not shown |
| `Scenarios.LeadingSpaceIsSearched` | PartyMenuNative/src/src/screens/HomeScreen.js:34-40 | " feta" switches the search on, yet finds nothing on a dish named Feta, because the leading space is searched for |
| `Scenarios.LookupWithMissAndRepeat` | PartyMenuNative/src/screens/IngredientScreen.js:18-29 | ["Feta", "Mystery Sauce", "feta"] resolves to the feta record, a stand-in, and the feta record again |

## Left out

- React state and effects are not modelled: `useState`, `useEffect`, `setFilteredDishes` and `setIngredients`. The filter is a method that returns the list, and the lookup is a function. Before its effect first runs, the ingredient screen renders an empty list with count 0. That transient first render is not modelled.
- Presentation is not modelled: the components `DishCard`, `CategoryTabs`, `SearchBar` and `FilterToggle`, the style sheets, navigation, and the alert built in `HomeScreen.js:75-84`.
- Loading `dishes.json` and `ingredients.json` is not modelled. The catalogs are given sequences of well-formed records. `allergens` is therefore always a list, and the `item.allergens &&` guard on `IngredientScreen.js:55` has no model.
- `Text.Lower`: only ASCII letters are lower-cased. JavaScript's full Unicode `toLowerCase` mapping is not modelled; only its role as a normaliser matters here.
- `price`, `prepTime` and `image` are display-only, so `Dish` omits them.
