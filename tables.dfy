/**
 * The rows of the application's tables and the tables themselves, held in
 * memory. Column names follow the source; the database assigns serial ids,
 * which the `Database` object hands out from a counter.
 */
module Tables {
  import opened Wrappers

  /** HTTP status codes the route handlers answer with. */
  const Ok: int := 200
  const Created: int := 201
  const BadRequest: int := 400
  const NotFound: int := 404
  const ServerError: int := 500

  /** A row of `groceries`: one purchase of an item by one user. Quantities and
      prices are JavaScript numbers or SQL NUMERIC values, modelled as reals. */
  datatype Grocery = Grocery(
    groceryid: int,
    userid: int,
    name: string,
    quantity: real,
    unit: string,
    price: real,
    date_of_purchase: Option<string>)

  /** One element of a recipe's `ingredients` list. */
  datatype Ingredient = Ingredient(ingredient_name: string, quantity: real, unit: string)

  /** A JSON text column as `JSON.parse` sees it: it parses to a value, or it throws. */
  datatype Stored<T> = Parses(value: T) | Unparsable

  /** A row of `recipes`. */
  datatype Recipe = Recipe(
    recipeid: int,
    name: string,
    description: string,
    ingredients: Stored<seq<Ingredient>>)

  /** One element of the `ingredientsUsed` list a client sends when it cooks. */
  datatype UsedIngredient = UsedIngredient(ingredient_name: string, quantity: real, used_amount: real)

  /** A row of `calculations`: one cooking event. `portionwasted` is a nullable
      column; `ingredients_used` holds the list that `JSON.stringify` serialised. */
  datatype Calculation = Calculation(
    calculationid: int,
    userid: int,
    recipeid: int,
    pax: int,
    ingredients_used: seq<UsedIngredient>,
    portionwasted: Option<real>)

  /** The tables that handlers change in place. `calculation` is the table the
      waste handler names, which is not the `calculations` table cooking fills. */
  class Database {
    var groceries: seq<Grocery>
    var calculations: seq<Calculation>
    var calculation: seq<Calculation>
    var nextGroceryId: int
    var nextCalculationId: int

    /** Serial ids: every id handed out so far is below the next one. */
    ghost predicate Valid()
      reads this
    {
      (forall i :: 0 <= i < |groceries| ==> groceries[i].groceryid < nextGroceryId)
      && (forall i :: 0 <= i < |calculations| ==> calculations[i].calculationid < nextCalculationId)
    }

    constructor (groceries: seq<Grocery>, calculations: seq<Calculation>, calculation: seq<Calculation>)
      ensures Valid()
      ensures this.groceries == groceries && this.calculations == calculations
      ensures this.calculation == calculation
    {
      this.groceries := groceries;
      this.calculations := calculations;
      this.calculation := calculation;
      nextGroceryId := 1 + MaxGroceryId(groceries);
      nextCalculationId := 1 + MaxCalculationId(calculations);
    }
  }

  /** The largest `groceryid` in `rows`, or 0 when there is none. */
  function MaxGroceryId(rows: seq<Grocery>): (m: int)
    ensures forall i :: 0 <= i < |rows| ==> rows[i].groceryid <= m
  {
    if rows == [] then 0
    else
      var rest := MaxGroceryId(rows[1..]);
      if rows[0].groceryid > rest then rows[0].groceryid else rest
  }

  /** The largest `calculationid` in `rows`, or 0 when there is none. */
  function MaxCalculationId(rows: seq<Calculation>): (m: int)
    ensures forall i :: 0 <= i < |rows| ==> rows[i].calculationid <= m
  {
    if rows == [] then 0
    else
      var rest := MaxCalculationId(rows[1..]);
      if rows[0].calculationid > rest then rows[0].calculationid else rest
  }
}
