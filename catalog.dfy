/** The records of the two static catalogs, as the screens read them. */
module Catalog {

  /** One menu item. Price, preparation time and image are display-only and
      are not part of the model. */
  datatype Dish = Dish(
    id: int,
    name: string,
    description: string,
    category: string,
    ingredients: seq<string>,
    isVegetarian: bool,
    isGlutenFree: bool)

  /** One entry of the ingredient catalog. */
  datatype Ingredient = Ingredient(
    name: string,
    category: string,
    description: string,
    allergens: seq<string>,
    isVegetarian: bool,
    isGlutenFree: bool)
}
