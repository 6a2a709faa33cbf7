/**
 * GET `/recommend/:userid` of server/routes/recommendationRoutes.js: the
 * recipes every ingredient of which the user has in stock. Stock means a
 * grocery row of the user with a positive quantity; an ingredient is in stock
 * when such a row has the same name once both are trimmed and lower-cased.
 * Quantities and units of the ingredients are not compared.
 */
module RecommendationRoutes {
  import opened Wrappers
  import opened Tables
  import opened Js
  import opened RecipeFilter

  /** One element of the response body. */
  datatype Match = Match(recipeid: int, recipename: string, grocerymatched: seq<Ingredient>)

  /** The response: a status and, on success, the matched recipes. */
  datatype Response = Response(status: int, body: seq<Match>)

  /** `.select("name, quantity").eq("userid", userid).gt("quantity", 0)` on `groceries`. */
  function Stock(groceries: seq<Grocery>, userid: int): seq<Grocery> {
    Filter(groceries, Stocked(userid))
  }

  /** The test the two query filters make on a row. */
  function Stocked(userid: int): Grocery -> bool {
    (g: Grocery) => g.userid == userid && g.quantity > 0.0
  }

  /** `name.trim().toLowerCase()` */
  function Key(name: string): string {
    ToLower(Trim(name))
  }

  /** `groceries.some(grocery => Key(grocery.name) === Key(ingredient.ingredient_name))` */
  predicate InStock(stock: seq<Grocery>, ing: Ingredient) {
    Any(stock, (g: Grocery) => Key(g.name) == Key(ing.ingredient_name))
  }

  /** Some row of `stock` has the trimmed, lower-cased name `key`. */
  predicate Covered(stock: seq<Grocery>, key: string) {
    exists j :: 0 <= j < |stock| && Key(stock[j].name) == key
  }

  /** `recipeIngredients.every(ingredient => InStock(...))` */
  predicate AllInStock(stock: seq<Grocery>, ings: seq<Ingredient>) {
    Every(ings, (ing: Ingredient) => InStock(stock, ing))
  }

  /** A recipe's ingredients are all in stock exactly when each of them has a
      stock row with the same trimmed, lower-cased name. */
  lemma AllInStockIff(stock: seq<Grocery>, ings: seq<Ingredient>)
    ensures AllInStock(stock, ings) <==> forall i :: 0 <= i < |ings| ==> Covered(stock, Key(ings[i].ingredient_name))
  {
    assert AllInStock(stock, ings) <==> forall i :: 0 <= i < |ings| ==> InStock(stock, ings[i]);
  }

  /** The test `filter` applies to one recipe's parsed ingredients. */
  function Test(stock: seq<Grocery>): seq<Ingredient> -> bool {
    (ings: seq<Ingredient>) => AllInStock(stock, ings)
  }

  /** The response entry built for a recipe whose ingredients parsed. */
  function Entry(r: Recipe): Match
    requires r.ingredients.Parses?
  {
    Match(r.recipeid, r.name, r.ingredients.value)
  }

  /** The entries of the recipes kept, in order. */
  function Entries(kept: seq<Recipe>): (r: seq<Match>)
    requires forall i :: 0 <= i < |kept| ==> kept[i].ingredients.Parses?
    ensures |r| == |kept|
    ensures forall i :: 0 <= i < |kept| ==> r[i] == Entry(kept[i])
  {
    if kept == [] then [] else [Entry(kept[0])] + Entries(kept[1..])
  }

  /** The route handler: `recipes.map(...)` builds an entry for each covered
      recipe and `null` for the others, which `filter` drops; 200 with the
      entries, or 500 when some recipe's ingredients do not parse. */
  function Recommend(groceries: seq<Grocery>, recipes: seq<Recipe>, userid: int): Response {
    var kept := KeepCovered(recipes, Test(Stock(groceries, userid)));
    if kept.None? then Response(ServerError, [])
    else
      KeptParse(recipes, Test(Stock(groceries, userid)));
      Response(Ok, Entries(kept.value))
  }

  /** The request fails exactly when some recipe's ingredients do not parse;
      otherwise a recipe's entry is in the answer exactly when every one of its
      ingredients is in stock, and nothing else is. */
  lemma RecommendSpec(groceries: seq<Grocery>, recipes: seq<Recipe>, userid: int)
    ensures Recommend(groceries, recipes, userid).status == ServerError <==> SomeUnparsable(recipes)
    ensures Recommend(groceries, recipes, userid).status != ServerError ==>
      Recommend(groceries, recipes, userid).status == Ok
      && (forall i :: 0 <= i < |recipes| ==>
            (Entry(recipes[i]) in Recommend(groceries, recipes, userid).body
             <==> AllInStock(Stock(groceries, userid), recipes[i].ingredients.value)))
      && (forall m :: m in Recommend(groceries, recipes, userid).body ==>
            exists i :: 0 <= i < |recipes| && m == Entry(recipes[i]))
  {
    var test := Test(Stock(groceries, userid));
    KeepCoveredSpec(recipes, test);
    if !SomeUnparsable(recipes) {
      KeptParse(recipes, test);
      var kept := KeepCovered(recipes, test).value;
      var body := Recommend(groceries, recipes, userid).body;
      assert body == Entries(kept);
      forall i | 0 <= i < |recipes|
        ensures Entry(recipes[i]) in body <==> test(recipes[i].ingredients.value)
      {
        if Entry(recipes[i]) in body {
          var j :| 0 <= j < |kept| && body[j] == Entry(recipes[i]);
          var k :| 0 <= k < |recipes| && recipes[k] == kept[j];
          assert recipes[k].ingredients.value == recipes[i].ingredients.value;
        }
        if test(recipes[i].ingredients.value) {
          var j :| 0 <= j < |kept| && kept[j] == recipes[i];
          assert body[j] == Entry(recipes[i]);
        }
      }
      forall m | m in body ensures exists i :: 0 <= i < |recipes| && m == Entry(recipes[i]) {
        var j :| 0 <= j < |body| && body[j] == m;
        var k :| 0 <= k < |recipes| && recipes[k] == kept[j];
        assert m == Entry(recipes[k]);
      }
    }
  }

  lemma {:induction false} EntriesAppend(x: seq<Recipe>, y: seq<Recipe>)
    requires forall i :: 0 <= i < |x| ==> x[i].ingredients.Parses?
    requires forall i :: 0 <= i < |y| ==> y[i].ingredients.Parses?
    ensures forall i :: 0 <= i < |x + y| ==> (x + y)[i].ingredients.Parses?
    ensures Entries(x + y) == Entries(x) + Entries(y)
  {
    var xy := x + y;
    forall i | 0 <= i < |xy| ensures xy[i].ingredients.Parses? {
      if i >= |x| {
        assert xy[i] == y[i - |x|];
      }
    }
  }

  /** The answer keeps the fetched order of the recipes: the answer for a
      concatenation is the answers for each part, concatenated. */
  lemma RecommendAppend(groceries: seq<Grocery>, a: seq<Recipe>, b: seq<Recipe>, userid: int)
    requires Recommend(groceries, a, userid).status == Ok
    requires Recommend(groceries, b, userid).status == Ok
    ensures Recommend(groceries, a + b, userid)
      == Response(Ok, Recommend(groceries, a, userid).body + Recommend(groceries, b, userid).body)
  {
    var test := Test(Stock(groceries, userid));
    KeepCoveredAppend(a, b, test);
    KeptParse(a, test);
    KeptParse(b, test);
    EntriesAppend(KeepCovered(a, test).value, KeepCovered(b, test).value);
  }

  /** A recipe with no ingredients is always recommended: `every` over `[]` is true. */
  lemma EmptyRecipeRecommended(groceries: seq<Grocery>, recipes: seq<Recipe>, userid: int, i: int)
    requires !SomeUnparsable(recipes)
    requires 0 <= i < |recipes| && recipes[i].ingredients == Parses([])
    ensures Recommend(groceries, recipes, userid).status == Ok
    ensures Entry(recipes[i]) in Recommend(groceries, recipes, userid).body
  {
    RecommendSpec(groceries, recipes, userid);
  }

  /** A key covered by some rows stays covered when rows are added. */
  lemma CoveredByMoreRows(s1: seq<Grocery>, s2: seq<Grocery>, key: string)
    requires forall g :: g in s1 ==> g in s2
    requires Covered(s1, key)
    ensures Covered(s2, key)
  {
    var j :| 0 <= j < |s1| && Key(s1[j].name) == key;
    assert s1[j] in s2;
    var j' :| 0 <= j' < |s2| && s2[j'] == s1[j];
  }

  /** Whether an ingredient is in stock depends only on which rows are in
      stock, not on their order or repetition. */
  lemma SameRowsSameMatches(s1: seq<Grocery>, s2: seq<Grocery>, ings: seq<Ingredient>)
    requires forall g :: g in s1 <==> g in s2
    ensures AllInStock(s1, ings) == AllInStock(s2, ings)
  {
    AllInStockIff(s1, ings);
    AllInStockIff(s2, ings);
    forall key ensures Covered(s1, key) <==> Covered(s2, key) {
      if Covered(s1, key) {
        CoveredByMoreRows(s1, s2, key);
      }
      if Covered(s2, key) {
        CoveredByMoreRows(s2, s1, key);
      }
    }
  }

  lemma StockTestsAgree(s1: seq<Grocery>, s2: seq<Grocery>)
    requires forall g :: g in s1 <==> g in s2
    ensures forall ings :: Test(s1)(ings) == Test(s2)(ings)
  {
    forall ings: seq<Ingredient> ensures Test(s1)(ings) == Test(s2)(ings) {
      SameRowsSameMatches(s1, s2, ings);
    }
  }

  lemma StockRows(groceries: seq<Grocery>, userid: int, g: Grocery)
    ensures g in Stock(groceries, userid) <==> g in groceries && g.userid == userid && g.quantity > 0.0
  {
    FilterSpec(groceries, Stocked(userid));
    var s := Stock(groceries, userid);
    if g in s {
      var k :| 0 <= k < |s| && s[k] == g;
    }
    if g in groceries && g.userid == userid && g.quantity > 0.0 {
      var k :| 0 <= k < |groceries| && groceries[k] == g;
    }
  }

  /** The answer does not depend on the order of the grocery rows. */
  lemma GroceryOrderIrrelevant(g1: seq<Grocery>, g2: seq<Grocery>, recipes: seq<Recipe>, userid: int)
    requires multiset(g1) == multiset(g2)
    ensures Recommend(g1, recipes, userid) == Recommend(g2, recipes, userid)
  {
    forall g ensures g in Stock(g1, userid) <==> g in Stock(g2, userid) {
      StockRows(g1, userid, g);
      StockRows(g2, userid, g);
      assert g in g1 <==> g in multiset(g1);
      assert g in g2 <==> g in multiset(g2);
    }
    StockTestsAgree(Stock(g1, userid), Stock(g2, userid));
    KeepCoveredCongruent(recipes, Test(Stock(g1, userid)), Test(Stock(g2, userid)));
  }

  /** A recipe is matched alike whatever the order of its ingredients. */
  lemma IngredientOrderIrrelevant(stock: seq<Grocery>, ings1: seq<Ingredient>, ings2: seq<Ingredient>)
    requires multiset(ings1) == multiset(ings2)
    ensures AllInStock(stock, ings1) == AllInStock(stock, ings2)
  {
    forall i | 0 <= i < |ings1| ensures ings1[i] in ings2 {
      assert ings1[i] in multiset(ings1);
    }
    forall i | 0 <= i < |ings2| ensures ings2[i] in ings1 {
      assert ings2[i] in multiset(ings2);
    }
  }

  /** A recipe covered by some rows stays covered when rows are added. */
  lemma AllInStockMonotone(s1: seq<Grocery>, s2: seq<Grocery>, ings: seq<Ingredient>)
    requires forall g :: g in s1 ==> g in s2
    requires AllInStock(s1, ings)
    ensures AllInStock(s2, ings)
  {
    AllInStockIff(s1, ings);
    AllInStockIff(s2, ings);
    forall i | 0 <= i < |ings| ensures Covered(s2, Key(ings[i].ingredient_name)) {
      CoveredByMoreRows(s1, s2, Key(ings[i].ingredient_name));
    }
  }

  /** Adding grocery rows never removes a recipe from the answer. */
  lemma MoreGroceriesKeepMatches(g1: seq<Grocery>, g2: seq<Grocery>, recipes: seq<Recipe>, userid: int)
    requires forall g :: g in g1 ==> g in g2
    ensures Recommend(g1, recipes, userid).status == Recommend(g2, recipes, userid).status
    ensures forall m :: m in Recommend(g1, recipes, userid).body ==> m in Recommend(g2, recipes, userid).body
  {
    var s1, s2 := Stock(g1, userid), Stock(g2, userid);
    forall g | g in s1 ensures g in s2 {
      StockRows(g1, userid, g);
      StockRows(g2, userid, g);
    }
    RecommendSpec(g1, recipes, userid);
    RecommendSpec(g2, recipes, userid);
    var body1 := Recommend(g1, recipes, userid).body;
    var body2 := Recommend(g2, recipes, userid).body;
    forall m | m in body1 ensures m in body2 {
      var i :| 0 <= i < |recipes| && m == Entry(recipes[i]);
      AllInStockMonotone(s1, s2, recipes[i].ingredients.value);
    }
  }

  /** Rows of other users and rows with no positive quantity play no part. */
  lemma ForeignOrEmptyRowIgnored(groceries: seq<Grocery>, g: Grocery, recipes: seq<Recipe>, userid: int)
    requires g.userid != userid || g.quantity <= 0.0
    ensures Recommend(groceries + [g], recipes, userid) == Recommend(groceries, recipes, userid)
  {
    FilterAppend(groceries, [g], Stocked(userid));
    assert Stock(groceries + [g], userid) == Stock(groceries, userid);
  }

  /** Presence, not sufficiency: a stocked row of any positive quantity and
      any unit covers an ingredient of the same name, whatever amount the
      recipe asks for. */
  lemma PresenceNotQuantity(groceries: seq<Grocery>, userid: int, g: Grocery, ing: Ingredient)
    requires g in groceries && g.userid == userid && g.quantity > 0.0
    requires Key(g.name) == Key(ing.ingredient_name)
    ensures AllInStock(Stock(groceries, userid), [ing])
  {
    var stock := Stock(groceries, userid);
    StockRows(groceries, userid, g);
    var j :| 0 <= j < |stock| && stock[j] == g;
    AllInStockIff(stock, [ing]);
  }

  /** Names match whatever white space surrounds them. */
  lemma KeyIgnoresPadding(p: string, s: string, q: string)
    requires AllSpace(p) && AllSpace(q)
    ensures Key(p + s + q) == Key(s)
  {
    TrimIgnoresPadding(p, s, q);
  }
}
