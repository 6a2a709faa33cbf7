/**
 * The handlers of server/routes/recipeRoutes.js that decide something: the
 * input guard shared by `POST /` and `PUT /:id`, the 404 of `PUT` and
 * `DELETE` when no row has the id, and `GET /recommended`, which keeps the
 * recipes each ingredient of which is covered by ONE grocery row with the
 * same lower-cased name and unit and at least the quantity asked for. Each
 * handler is a function from the `recipes` table to a status and the table
 * after the query.
 */
module RecipeRoutes {
  import opened Wrappers
  import opened Tables
  import opened Js
  import opened RecipeFilter

  /** The fields of a request body. `recipe_name` is `None` when it is missing
      or `null`; `ingredients` is `None` when it is not an array. */
  datatype RecipeBody = RecipeBody(recipe_name: Option<string>, description: string, ingredients: Option<seq<Ingredient>>)

  /** What a handler answers and the `recipes` table after it. */
  datatype Outcome = Outcome(status: int, table: seq<Recipe>)

  /** `!recipe_name || !Array.isArray(ingredients) || ingredients.length === 0`
      is false: the name is a non-empty string and the ingredients a non-empty array. */
  predicate Acceptable(body: RecipeBody) {
    body.recipe_name.Some? && body.recipe_name.value != ""
    && body.ingredients.Some? && body.ingredients.value != []
  }

  /** The row `INSERT ... RETURNING *` or `UPDATE ... RETURNING *` stores for a
      body: the ingredients are stored as their JSON text, which parses back. */
  function Stored(id: int, body: RecipeBody): Recipe
    requires Acceptable(body)
  {
    Recipe(id, body.recipe_name.value, body.description, Parses(body.ingredients.value))
  }

  /** The serial id the database hands out next is above every id in the table. */
  predicate IdsBelow(table: seq<Recipe>, nextId: int) {
    forall i :: 0 <= i < |table| ==> table[i].recipeid < nextId
  }

  predicate HasId(table: seq<Recipe>, id: int) {
    exists i :: 0 <= i < |table| && table[i].recipeid == id
  }

  /** `POST /`: 400 and no insert for an unacceptable body; otherwise 201 and
      one row with the next serial id appended. */
  function Post(table: seq<Recipe>, nextId: int, body: RecipeBody): Outcome {
    if !Acceptable(body) then Outcome(BadRequest, table)
    else Outcome(Created, table + [Stored(nextId, body)])
  }

  /** `UPDATE recipes SET ... WHERE recipeid = id`. */
  function UpdateWhere(table: seq<Recipe>, id: int, row: Recipe): (r: seq<Recipe>)
    ensures |r| == |table|
    ensures forall i :: 0 <= i < |table| ==>
      r[i] == if table[i].recipeid == id then row.(recipeid := id) else table[i]
  {
    if table == [] then []
    else [if table[0].recipeid == id then row.(recipeid := id) else table[0]] + UpdateWhere(table[1..], id, row)
  }

  /** `PUT /:id`: 400 for an unacceptable body, 404 when no row has the id,
      otherwise 200 with every row of that id rewritten. */
  function Put(table: seq<Recipe>, id: int, body: RecipeBody): Outcome {
    if !Acceptable(body) then Outcome(BadRequest, table)
    else if !HasId(table, id) then Outcome(NotFound, table)
    else Outcome(Ok, UpdateWhere(table, id, Stored(id, body)))
  }

  /** `DELETE /:id`: 404 when no row has the id, otherwise 200 with those rows removed. */
  function Delete(table: seq<Recipe>, id: int): Outcome {
    if !HasId(table, id) then Outcome(NotFound, table)
    else Outcome(Ok, Filter(table, OtherId(id)))
  }

  /** `WHERE recipeid = id` negated: the rows a delete keeps. */
  function OtherId(id: int): Recipe -> bool {
    (r: Recipe) => r.recipeid != id
  }

  /** POST answers 400 exactly for an unacceptable body and then inserts
      nothing; otherwise it appends exactly the row the body describes, under
      an id no row had. */
  lemma PostSpec(table: seq<Recipe>, nextId: int, body: RecipeBody)
    requires IdsBelow(table, nextId)
    ensures Post(table, nextId, body).status == BadRequest <==> !Acceptable(body)
    ensures !Acceptable(body) ==> Post(table, nextId, body).table == table
    ensures Acceptable(body) ==>
      Post(table, nextId, body) == Outcome(Created, table + [Stored(nextId, body)])
      && !HasId(table, nextId)
      && IdsBelow(Post(table, nextId, body).table, nextId + 1)
  {
  }

  /** Deleting the recipe just added gives back the table as it was. */
  lemma DeleteAfterPost(table: seq<Recipe>, nextId: int, body: RecipeBody)
    requires IdsBelow(table, nextId)
    requires Acceptable(body)
    ensures Delete(Post(table, nextId, body).table, nextId) == Outcome(Ok, table)
  {
    var t := Post(table, nextId, body).table;
    assert t[|table|].recipeid == nextId;
    FilterAppend(table, [Stored(nextId, body)], OtherId(nextId));
    FilterAll(table, OtherId(nextId));
  }

  /** PUT answers 400 for an unacceptable body and 404 when no row has the id,
      changing nothing in either case; otherwise it rewrites exactly the rows
      with that id, keeping their id and their place, and no other row. */
  lemma PutSpec(table: seq<Recipe>, id: int, body: RecipeBody)
    ensures Put(table, id, body).status == BadRequest <==> !Acceptable(body)
    ensures Put(table, id, body).status == NotFound <==> Acceptable(body) && !HasId(table, id)
    ensures Put(table, id, body).status != Ok ==> Put(table, id, body).table == table
    ensures Acceptable(body) && HasId(table, id) ==> Put(table, id, body).status == Ok
    ensures Put(table, id, body).status == Ok ==>
      |Put(table, id, body).table| == |table|
      && forall i :: 0 <= i < |table| ==>
           Put(table, id, body).table[i] == if table[i].recipeid == id then Stored(id, body) else table[i]
  {
  }

  /** Sending the same update twice leaves the table as sending it once. */
  lemma PutIdempotent(table: seq<Recipe>, id: int, body: RecipeBody)
    ensures Put(Put(table, id, body).table, id, body) == Put(table, id, body)
  {
    if Acceptable(body) && HasId(table, id) {
      var once := Put(table, id, body).table;
      var i :| 0 <= i < |table| && table[i].recipeid == id;
      assert once[i].recipeid == id;
      var twice := Put(once, id, body).table;
      assert twice == once;
    }
  }

  /** DELETE answers 404 and changes nothing when no row has the id; otherwise
      it keeps exactly the rows with another id. */
  lemma DeleteSpec(table: seq<Recipe>, id: int)
    ensures Delete(table, id).status == NotFound <==> !HasId(table, id)
    ensures !HasId(table, id) ==> Delete(table, id).table == table
    ensures HasId(table, id) ==>
      Delete(table, id).status == Ok
      && |Delete(table, id).table| < |table|
      && forall r :: r in Delete(table, id).table <==> r in table && r.recipeid != id
  {
    if HasId(table, id) {
      var i :| 0 <= i < |table| && table[i].recipeid == id;
      FilterDrops(table, OtherId(id), i);
      FilterSpec(table, OtherId(id));
    }
  }

  /** The `groceries.find(...)` test for one row: equal lower-cased names and
      units (neither is trimmed), and at least the quantity asked for. */
  predicate Sufficient(g: Grocery, ing: Ingredient) {
    ToLower(g.name) == ToLower(ing.ingredient_name)
    && ToLower(g.unit) == ToLower(ing.unit)
    && g.quantity >= ing.quantity
  }

  /** `recipe.ingredients.every(ingredient => Boolean(groceries.find(...)))` */
  predicate Feasible(groceries: seq<Grocery>, ings: seq<Ingredient>) {
    Every(ings, (ing: Ingredient) => Any(groceries, (g: Grocery) => Sufficient(g, ing)))
  }

  function Test(groceries: seq<Grocery>): seq<Ingredient> -> bool {
    (ings: seq<Ingredient>) => Feasible(groceries, ings)
  }

  /** `GET /recommended`: the rows of every user are fetched; 200 with the
      recipes kept, their ingredients parsed, or 500 when a recipe's
      ingredients do not parse. */
  function Recommended(groceries: seq<Grocery>, recipes: seq<Recipe>): (Option<seq<Recipe>>, int) {
    var kept := KeepCovered(recipes, Test(groceries));
    if kept.None? then (None, ServerError) else (kept, Ok)
  }

  /** A recipe is feasible exactly when each of its ingredients has one
      grocery row that suffices on its own. */
  lemma FeasibleIff(groceries: seq<Grocery>, ings: seq<Ingredient>)
    ensures Feasible(groceries, ings) <==>
      forall i :: 0 <= i < |ings| ==> exists j :: 0 <= j < |groceries| && Sufficient(groceries[j], ings[i])
  {
    assert Feasible(groceries, ings) <==>
      forall i :: 0 <= i < |ings| ==> Any(groceries, (g: Grocery) => Sufficient(g, ings[i]));
  }

  /** The request fails exactly when some recipe does not parse; otherwise a
      recipe is recommended exactly when it is feasible, and only fetched
      recipes are. */
  lemma RecommendedSpec(groceries: seq<Grocery>, recipes: seq<Recipe>)
    ensures Recommended(groceries, recipes).1 == ServerError <==> SomeUnparsable(recipes)
    ensures Recommended(groceries, recipes).1 == Ok <==> Recommended(groceries, recipes).0.Some?
    ensures Recommended(groceries, recipes).0.Some? ==>
      (forall i :: 0 <= i < |recipes| ==>
         (recipes[i] in Recommended(groceries, recipes).0.value <==> Feasible(groceries, recipes[i].ingredients.value)))
      && (forall i :: 0 <= i < |Recommended(groceries, recipes).0.value| ==>
            Recommended(groceries, recipes).0.value[i] in recipes)
  {
    KeepCoveredSpec(recipes, Test(groceries));
  }

  /** The answer keeps the fetched order of the recipes. */
  lemma RecommendedAppend(groceries: seq<Grocery>, a: seq<Recipe>, b: seq<Recipe>)
    requires Recommended(groceries, a).0.Some? && Recommended(groceries, b).0.Some?
    ensures Recommended(groceries, a + b).0 ==
      Some(Recommended(groceries, a).0.value + Recommended(groceries, b).0.value)
  {
    KeepCoveredAppend(a, b, Test(groceries));
  }

  /** A recipe with no ingredients is always recommended. */
  lemma EmptyRecipeRecommended(groceries: seq<Grocery>, recipes: seq<Recipe>, i: int)
    requires !SomeUnparsable(recipes)
    requires 0 <= i < |recipes| && recipes[i].ingredients == Parses([])
    ensures Recommended(groceries, recipes).1 == Ok
    ensures recipes[i] in Recommended(groceries, recipes).0.value
  {
    RecommendedSpec(groceries, recipes);
  }

  /** Sufficiency is per single row: two rows of 300 g of rice do not cover
      500 g of rice, although together they hold 600 g. */
  lemma PerRowNotSummed()
    ensures !Feasible(
      [Grocery(1, 1, "rice", 300.0, "g", 1.0, None), Grocery(2, 1, "rice", 300.0, "g", 1.0, None)],
      [Ingredient("rice", 500.0, "g")])
  {
    FeasibleIff(
      [Grocery(1, 1, "rice", 300.0, "g", 1.0, None), Grocery(2, 1, "rice", 300.0, "g", 1.0, None)],
      [Ingredient("rice", 500.0, "g")]);
  }

  /** Names are lower-cased but not trimmed: a row named " rice" does not
      cover the ingredient "rice", whatever its quantity. */
  lemma NamesNotTrimmed(q: real, ing: Ingredient)
    requires ing.ingredient_name == "rice"
    ensures !Sufficient(Grocery(1, 1, " rice", q, ing.unit, 1.0, None), ing)
  {
    assert ToLower(" rice")[0] == ' ';
    assert ToLower("rice")[0] == 'r';
  }

  /** Whose row it is plays no part: giving a row to another user changes
      nothing in the answer. */
  lemma OwnerIrrelevant(groceries: seq<Grocery>, recipes: seq<Recipe>, k: int, u: int)
    requires 0 <= k < |groceries|
    ensures Recommended(groceries[k := groceries[k].(userid := u)], recipes) == Recommended(groceries, recipes)
  {
    var other := groceries[k := groceries[k].(userid := u)];
    forall ings: seq<Ingredient> ensures Test(other)(ings) == Test(groceries)(ings) {
      FeasibleIff(other, ings);
      FeasibleIff(groceries, ings);
      forall i, j | 0 <= i < |ings| && 0 <= j < |groceries|
        ensures Sufficient(other[j], ings[i]) == Sufficient(groceries[j], ings[i])
      {
      }
    }
    KeepCoveredCongruent(recipes, Test(other), Test(groceries));
  }

  /** Adding grocery rows never removes a recipe from the answer. */
  lemma MoreGroceriesKeepRecommended(g1: seq<Grocery>, g2: seq<Grocery>, recipes: seq<Recipe>)
    requires forall g :: g in g1 ==> g in g2
    ensures Recommended(g1, recipes).1 == Recommended(g2, recipes).1
    ensures Recommended(g1, recipes).0.Some? ==>
      forall r :: r in Recommended(g1, recipes).0.value ==> r in Recommended(g2, recipes).0.value
  {
    forall ings: seq<Ingredient> | Test(g1)(ings) ensures Test(g2)(ings) {
      FeasibleIff(g1, ings);
      FeasibleIff(g2, ings);
      forall i | 0 <= i < |ings| ensures exists j :: 0 <= j < |g2| && Sufficient(g2[j], ings[i]) {
        var j :| 0 <= j < |g1| && Sufficient(g1[j], ings[i]);
        assert g1[j] in g2;
      }
    }
    KeepCoveredSpec(recipes, Test(g1));
    KeepCoveredSpec(recipes, Test(g2));
    if Recommended(g1, recipes).0.Some? {
      KeepCoveredMonotone(recipes, Test(g1), Test(g2));
    }
  }
}
