/**
 * The shape both recommendation handlers share: parse the ingredient list of
 * every fetched recipe (one that does not parse makes `JSON.parse` throw and
 * the request fail), then keep, in the fetched order, the recipes whose
 * ingredients pass a test. The test itself differs between the two handlers
 * and is a parameter here.
 */
module RecipeFilter {
  import opened Wrappers
  import opened Tables

  predicate SomeUnparsable(recipes: seq<Recipe>) {
    exists i :: 0 <= i < |recipes| && recipes[i].ingredients.Unparsable?
  }

  /** The recipes kept, or `None` when some recipe's ingredients do not parse. */
  function KeepCovered(recipes: seq<Recipe>, covered: seq<Ingredient> -> bool): Option<seq<Recipe>> {
    if recipes == [] then Some([])
    else if recipes[0].ingredients.Unparsable? then None
    else
      var rest := KeepCovered(recipes[1..], covered);
      if rest.None? then None
      else Some((if covered(recipes[0].ingredients.value) then [recipes[0]] else []) + rest.value)
  }

  /** The request fails exactly when some recipe does not parse, whether or not
      it would have been kept; otherwise a recipe is kept exactly when its
      ingredients pass the test, and only fetched recipes are kept. */
  lemma {:induction false} KeepCoveredSpec(recipes: seq<Recipe>, covered: seq<Ingredient> -> bool)
    ensures KeepCovered(recipes, covered).None? <==> SomeUnparsable(recipes)
    ensures KeepCovered(recipes, covered).Some? ==>
      forall i :: 0 <= i < |recipes| ==>
        (recipes[i] in KeepCovered(recipes, covered).value <==> covered(recipes[i].ingredients.value))
    ensures KeepCovered(recipes, covered).Some? ==>
      forall i :: 0 <= i < |KeepCovered(recipes, covered).value| ==>
        KeepCovered(recipes, covered).value[i] in recipes
  {
    if recipes != [] {
      KeepCoveredSpec(recipes[1..], covered);
      if !SomeUnparsable(recipes) {
        assert !SomeUnparsable(recipes[1..]) by {
          forall i | 0 <= i < |recipes[1..]| ensures recipes[1..][i].ingredients.Parses? {
            assert recipes[1..][i] == recipes[i + 1];
          }
        }
        var kept := KeepCovered(recipes, covered).value;
        forall i | 0 <= i < |recipes|
          ensures recipes[i] in kept <==> covered(recipes[i].ingredients.value)
        {
          if i > 0 {
            assert recipes[i] == recipes[1..][i - 1];
          }
        }
        forall i | 0 <= i < |kept| ensures kept[i] in recipes {
          if kept[i] != recipes[0] {
            assert kept[i] in recipes[1..];
          }
        }
      } else if recipes[0].ingredients.Parses? {
        var i :| 0 <= i < |recipes| && recipes[i].ingredients.Unparsable?;
        assert recipes[1..][i - 1] == recipes[i];
      }
    }
  }

  /** Every recipe kept has ingredients that parsed. */
  lemma KeptParse(recipes: seq<Recipe>, covered: seq<Ingredient> -> bool)
    requires KeepCovered(recipes, covered).Some?
    ensures forall i :: 0 <= i < |KeepCovered(recipes, covered).value| ==>
      KeepCovered(recipes, covered).value[i].ingredients.Parses?
  {
    KeepCoveredSpec(recipes, covered);
    var kept := KeepCovered(recipes, covered).value;
    forall i | 0 <= i < |kept| ensures kept[i].ingredients.Parses? {
      var j :| 0 <= j < |recipes| && recipes[j] == kept[i];
    }
  }

  /** The fetched order is kept: the recipes kept from a concatenation are
      those kept from each part, concatenated. */
  lemma {:induction false} KeepCoveredAppend(a: seq<Recipe>, b: seq<Recipe>, covered: seq<Ingredient> -> bool)
    requires KeepCovered(a, covered).Some? && KeepCovered(b, covered).Some?
    ensures KeepCovered(a + b, covered) == Some(KeepCovered(a, covered).value + KeepCovered(b, covered).value)
  {
    var y := KeepCovered(b, covered).value;
    if a == [] {
      assert a + b == b;
      assert [] + y == y;
    } else {
      var ab := a + b;
      assert ab[0] == a[0] && ab[1..] == a[1..] + b;
      KeepCoveredAppend(a[1..], b, covered);
      var head := if covered(a[0].ingredients.value) then [a[0]] else [];
      var x := KeepCovered(a[1..], covered).value;
      assert KeepCovered(a, covered) == Some(head + x);
      assert KeepCovered(ab, covered) == Some(head + (x + y));
      assert head + (x + y) == (head + x) + y;
    }
  }

  /** A weaker test keeps at least the same recipes. */
  lemma {:induction false} KeepCoveredMonotone(recipes: seq<Recipe>, c1: seq<Ingredient> -> bool, c2: seq<Ingredient> -> bool)
    requires forall ings :: c1(ings) ==> c2(ings)
    requires KeepCovered(recipes, c1).Some?
    ensures KeepCovered(recipes, c2).Some?
    ensures forall r :: r in KeepCovered(recipes, c1).value ==> r in KeepCovered(recipes, c2).value
  {
    if recipes != [] {
      KeepCoveredMonotone(recipes[1..], c1, c2);
    }
  }

  /** Two tests that agree on every list keep the same recipes. */
  lemma {:induction false} KeepCoveredCongruent(recipes: seq<Recipe>, c1: seq<Ingredient> -> bool, c2: seq<Ingredient> -> bool)
    requires forall ings :: c1(ings) == c2(ings)
    ensures KeepCovered(recipes, c1) == KeepCovered(recipes, c2)
  {
    if recipes != [] {
      KeepCoveredCongruent(recipes[1..], c1, c2);
    }
  }
}
