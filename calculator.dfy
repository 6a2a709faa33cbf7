/**
 * GET `/:recipeId/leftovers` of server/routes/calculatorRoutes.js. One SQL
 * statement expands the ingredient lists of the recipes with the requested id,
 * sums grocery quantities per name over the whole `groceries` table, left-joins
 * the two on the name, and clamps `available - required` at zero. Here each
 * step of the statement is a function over the table values.
 */
module CalculatorRoutes {
  import opened Wrappers
  import opened Tables

  /** One row of the answer. */
  datatype LeftoverRow = LeftoverRow(
    ingredient_name: string,
    required_quantity: real,
    available_quantity: real,
    leftover_quantity: real)

  /** `RecipeIngredients` and `ParsedIngredients`: `json_array_elements` over
      the ingredients of every recipe with the requested id, in table order.
      `None` when such a recipe's ingredients are not a JSON array, which makes
      the statement fail; recipes with other ids are not looked at. */
  function RecipeIngredients(recipes: seq<Recipe>, id: int): Option<seq<Ingredient>> {
    if recipes == [] then Some([])
    else
      var rest := RecipeIngredients(recipes[1..], id);
      if recipes[0].recipeid != id then rest
      else if recipes[0].ingredients.Unparsable? || rest.None? then None
      else Some(recipes[0].ingredients.value + rest.value)
  }

  /** `SUM(g.quantity) ... GROUP BY` the name, looked up through the left join
      and `COALESCE(..., 0)`: the quantities of every row with exactly this
      name, whoever owns it and whatever its unit, or 0 when there is none. */
  function Available(groceries: seq<Grocery>, name: string): real {
    if groceries == [] then 0.0
    else (if groceries[0].name == name then groceries[0].quantity else 0.0) + Available(groceries[1..], name)
  }

  /** `GREATEST(0, available - required)` */
  function Leftover(available: real, required: real): (r: real)
    ensures r >= 0.0
    ensures available >= required ==> available - r == required
    ensures available < required ==> r == 0.0
  {
    if available - required > 0.0 then available - required else 0.0
  }

  function Row(groceries: seq<Grocery>, ing: Ingredient): LeftoverRow {
    var available := Available(groceries, ing.ingredient_name);
    LeftoverRow(ing.ingredient_name, ing.quantity, available, Leftover(available, ing.quantity))
  }

  /** The final `SELECT ... FROM ParsedIngredients pi LEFT JOIN AvailableGroceries ag`. */
  function JoinRows(groceries: seq<Grocery>, ings: seq<Ingredient>): seq<LeftoverRow> {
    if ings == [] then [] else [Row(groceries, ings[0])] + JoinRows(groceries, ings[1..])
  }

  /** The handler: 200 with the rows, or 500 when the statement fails. */
  function Leftovers(groceries: seq<Grocery>, recipes: seq<Recipe>, id: int): (int, seq<LeftoverRow>) {
    match RecipeIngredients(recipes, id)
    case None => (ServerError, [])
    case Some(ings) => (Ok, JoinRows(groceries, ings))
  }

  /** The left join loses no ingredient and duplicates none: row `i` belongs
      to ingredient `i`, carries its name and required quantity, the sum
      available under that name and the clamped difference. */
  lemma {:induction false} JoinRowsSpec(groceries: seq<Grocery>, ings: seq<Ingredient>)
    ensures |JoinRows(groceries, ings)| == |ings|
    ensures forall i :: 0 <= i < |ings| ==>
      var row := JoinRows(groceries, ings)[i];
      row.ingredient_name == ings[i].ingredient_name
      && row.required_quantity == ings[i].quantity
      && row.available_quantity == Available(groceries, ings[i].ingredient_name)
      && row.leftover_quantity >= 0.0
      && (row.available_quantity >= row.required_quantity ==>
            row.available_quantity - row.leftover_quantity == row.required_quantity)
      && (row.available_quantity < row.required_quantity ==> row.leftover_quantity == 0.0)
  {
    if ings != [] {
      JoinRowsSpec(groceries, ings[1..]);
      forall i | 1 <= i < |ings| ensures JoinRows(groceries, ings)[i] == JoinRows(groceries, ings[1..])[i - 1] {
      }
    }
  }

  /** The statement fails exactly when a recipe with the requested id has
      ingredients that are not a JSON array. */
  lemma {:induction false} RecipeIngredientsFails(recipes: seq<Recipe>, id: int)
    ensures RecipeIngredients(recipes, id).None? <==>
      exists i :: 0 <= i < |recipes| && recipes[i].recipeid == id && recipes[i].ingredients.Unparsable?
  {
    if recipes != [] {
      RecipeIngredientsFails(recipes[1..], id);
      if exists i :: 0 <= i < |recipes[1..]| && recipes[1..][i].recipeid == id && recipes[1..][i].ingredients.Unparsable? {
        var i :| 0 <= i < |recipes[1..]| && recipes[1..][i].recipeid == id && recipes[1..][i].ingredients.Unparsable?;
        assert recipes[i + 1] == recipes[1..][i];
      }
      if exists i :: 0 <= i < |recipes| && recipes[i].recipeid == id && recipes[i].ingredients.Unparsable? {
        var i :| 0 <= i < |recipes| && recipes[i].recipeid == id && recipes[i].ingredients.Unparsable?;
        if i > 0 {
          assert recipes[1..][i - 1] == recipes[i];
        }
      }
    }
  }

  /** With one recipe of the id whose ingredients parse, the answer has one row per ingredient of it. */
  lemma {:induction false} SingleRecipeIngredients(recipes: seq<Recipe>, id: int, k: int)
    requires 0 <= k < |recipes| && recipes[k].recipeid == id && recipes[k].ingredients.Parses?
    requires forall i :: 0 <= i < |recipes| && i != k ==> recipes[i].recipeid != id
    ensures RecipeIngredients(recipes, id) == Some(recipes[k].ingredients.value)
  {
    if k == 0 {
      NoRecipeNoRows([], recipes[1..], id);
      assert recipes[0].ingredients.value + [] == recipes[0].ingredients.value;
    } else {
      SingleRecipeIngredients(recipes[1..], id, k - 1);
    }
  }

  /** An id no recipe has gives 200 with no rows, not a 404. */
  lemma {:induction false} NoRecipeNoRows(groceries: seq<Grocery>, recipes: seq<Recipe>, id: int)
    requires forall i :: 0 <= i < |recipes| ==> recipes[i].recipeid != id
    ensures RecipeIngredients(recipes, id) == Some([])
    ensures Leftovers(groceries, recipes, id) == (Ok, [])
  {
    if recipes != [] {
      NoRecipeNoRows(groceries, recipes[1..], id);
    }
  }

  /** The sum is additive over the rows of the table. */
  lemma {:induction false} AvailableAppend(a: seq<Grocery>, b: seq<Grocery>, name: string)
    ensures Available(a + b, name) == Available(a, name) + Available(b, name)
  {
    if a == [] {
      assert a + b == b;
    } else {
      assert (a + b)[1..] == a[1..] + b;
      AvailableAppend(a[1..], b, name);
    }
  }

  /** Rows of another name add nothing: names match by exact equality. */
  lemma {:induction false} AvailableNone(groceries: seq<Grocery>, name: string)
    requires forall i :: 0 <= i < |groceries| ==> groceries[i].name != name
    ensures Available(groceries, name) == 0.0
  {
    if groceries != [] {
      AvailableNone(groceries[1..], name);
    }
  }

  /** A row adds its quantity under its own name, whoever owns it and whatever its unit. */
  lemma AddedRow(groceries: seq<Grocery>, g: Grocery, name: string)
    ensures Available(groceries + [g], name) ==
      Available(groceries, name) + (if g.name == name then g.quantity else 0.0)
  {
    AvailableAppend(groceries, [g], name);
  }

  /** The table without row `k`. */
  function Without(b: seq<Grocery>, k: int): seq<Grocery>
    requires 0 <= k < |b|
  {
    b[..k] + b[k + 1..]
  }

  /** Taking one row out of the table takes its share out of the sum. */
  lemma AvailableRemove(b: seq<Grocery>, k: int, name: string)
    requires 0 <= k < |b|
    ensures Available(b, name) == Available([b[k]], name) + Available(Without(b, k), name)
  {
    assert b == (b[..k] + [b[k]]) + b[k + 1..];
    AvailableAppend(b[..k] + [b[k]], b[k + 1..], name);
    AvailableAppend(b[..k], [b[k]], name);
    AvailableAppend(b[..k], b[k + 1..], name);
  }

  lemma MultisetWithout(b: seq<Grocery>, k: int)
    requires 0 <= k < |b|
    ensures multiset(Without(b, k)) == multiset(b) - multiset{b[k]}
  {
    assert b == b[..k] + [b[k]] + b[k + 1..];
  }

  /** A row of `a` is a row of `b` when both hold the same rows, and taking it
      out of both leaves them holding the same rows. */
  lemma MatchingRow(a: seq<Grocery>, b: seq<Grocery>) returns (k: int)
    requires a != [] && multiset(a) == multiset(b)
    ensures 0 <= k < |b| && b[k] == a[0]
    ensures multiset(Without(a, 0)) == multiset(Without(b, k))
  {
    assert a[0] in multiset(a);
    k :| 0 <= k < |b| && b[k] == a[0];
    MultisetWithout(a, 0);
    MultisetWithout(b, k);
  }

  /** The sum does not depend on the order of the rows. */
  lemma {:induction false} AvailableOrderIrrelevant(a: seq<Grocery>, b: seq<Grocery>, name: string)
    requires multiset(a) == multiset(b)
    ensures Available(a, name) == Available(b, name)
    decreases |a|
  {
    if a != [] {
      var k := MatchingRow(a, b);
      AvailableOrderIrrelevant(Without(a, 0), Without(b, k), name);
      AvailableRemove(b, k, name);
      AvailableRemove(a, 0, name);
    }
  }
}
