/**
 * The cook route (`POST /`) and the waste route (`PUT /waste/:calculationid`)
 * of server/routes/cookRoutes.js. Cooking overwrites the quantity of every
 * grocery row of the user whose name equals an ingredient's name, one
 * ingredient after the other, then records one cooking event.
 */
module CookRoutes {
  import opened Wrappers
  import opened Tables

  /** JavaScript truthiness of an id or a serving count: a missing field
      (`undefined` or `null`) and `0` are falsy. */
  predicate Truthy(v: Option<int>) {
    v.Some? && v.value != 0
  }

  /** The guard of the cook route. A list of ingredients, even an empty one, is truthy. */
  predicate RequestComplete(userid: Option<int>, recipeid: Option<int>, pax: Option<int>,
                            ingredientsUsed: Option<seq<UsedIngredient>>)
  {
    Truthy(userid) && Truthy(recipeid) && Truthy(pax) && ingredientsUsed.Some?
  }

  /** The quantity written for one ingredient: computed from what the caller
      sent, not from the stored row, and not clamped at zero. */
  function Remaining(ing: UsedIngredient, pax: int): real {
    ing.quantity - ing.used_amount * pax as real
  }

  /** The rows `.eq("name", name).eq("userid", userid)` selects: exact, case-sensitive name equality. */
  predicate Selected(row: Grocery, name: string, userid: int) {
    row.name == name && row.userid == userid
  }

  /** `update({ quantity: q }).eq("name", name).eq("userid", userid)` on `groceries`. */
  function SetQuantityWhere(rows: seq<Grocery>, name: string, userid: int, q: real): (r: seq<Grocery>)
    ensures |r| == |rows|
    ensures forall k :: 0 <= k < |rows| ==>
      r[k] == if Selected(rows[k], name, userid) then rows[k].(quantity := q) else rows[k]
  {
    if rows == [] then []
    else
      [if Selected(rows[0], name, userid) then rows[0].(quantity := q) else rows[0]]
      + SetQuantityWhere(rows[1..], name, userid, q)
  }

  /** The groceries table once the update of every entry of `ings` has been issued, in list order. */
  function Deducted(rows: seq<Grocery>, userid: int, pax: int, ings: seq<UsedIngredient>): (r: seq<Grocery>)
    ensures |r| == |rows|
    decreases |ings|
  {
    if ings == [] then rows
    else
      var last := ings[|ings| - 1];
      SetQuantityWhere(Deducted(rows, userid, pax, ings[..|ings| - 1]), last.ingredient_name, userid, Remaining(last, pax))
  }

  /** The position of the last entry of `ings` named `name`, if there is one. */
  function LastNamed(ings: seq<UsedIngredient>, name: string): (r: Option<nat>)
    ensures r.Some? ==> r.value < |ings| && ings[r.value].ingredient_name == name
    ensures r.Some? ==> forall j :: r.value < j < |ings| ==> ings[j].ingredient_name != name
    ensures r.None? ==> forall j :: 0 <= j < |ings| ==> ings[j].ingredient_name != name
    decreases |ings|
  {
    if ings == [] then None
    else if ings[|ings| - 1].ingredient_name == name then Some(|ings| - 1)
    else LastNamed(ings[..|ings| - 1], name)
  }

  /** What the loop leaves in row `k`: a row of this user whose name equals the
      name of some entry holds the quantity computed from the LAST such entry;
      every other row is as it was. No row is added or removed. */
  lemma {:induction false} DeductedRow(rows: seq<Grocery>, userid: int, pax: int, ings: seq<UsedIngredient>, k: int)
    requires 0 <= k < |rows|
    ensures Deducted(rows, userid, pax, ings)[k] ==
      match LastNamed(ings, rows[k].name)
      case Some(j) =>
        if rows[k].userid == userid then rows[k].(quantity := Remaining(ings[j], pax)) else rows[k]
      case None => rows[k]
    decreases |ings|
  {
    if ings != [] {
      DeductedRow(rows, userid, pax, ings[..|ings| - 1], k);
    }
  }

  /** Rows of other users, and rows whose name no entry carries, are left alone. */
  lemma UntouchedRow(rows: seq<Grocery>, userid: int, pax: int, ings: seq<UsedIngredient>, k: int)
    requires 0 <= k < |rows|
    requires rows[k].userid != userid || forall j :: 0 <= j < |ings| ==> ings[j].ingredient_name != rows[k].name
    ensures Deducted(rows, userid, pax, ings)[k] == rows[k]
  {
    DeductedRow(rows, userid, pax, ings, k);
  }

  /** Only the quantity column is ever written: every other column of every row keeps its value. */
  lemma OnlyQuantityChanges(rows: seq<Grocery>, userid: int, pax: int, ings: seq<UsedIngredient>, k: int)
    requires 0 <= k < |rows|
    ensures Deducted(rows, userid, pax, ings)[k].(quantity := rows[k].quantity) == rows[k]
  {
    DeductedRow(rows, userid, pax, ings, k);
  }

  /** A selected row ends up with `quantity - used_amount * pax` of the last entry
      naming it, whatever it held before; the value is negative exactly when
      the caller's quantity is below the amount used. */
  lemma QuantityFromRequest(rows: seq<Grocery>, userid: int, pax: int, ings: seq<UsedIngredient>, k: int, j: int, stored: real)
    requires 0 <= k < |rows| && rows[k].userid == userid
    requires 0 <= j < |ings| && ings[j].ingredient_name == rows[k].name
    requires forall i :: j < i < |ings| ==> ings[i].ingredient_name != rows[k].name
    ensures Deducted(rows, userid, pax, ings)[k].quantity == ings[j].quantity - ings[j].used_amount * pax as real
    ensures Deducted(rows[k := rows[k].(quantity := stored)], userid, pax, ings)[k].quantity
         == Deducted(rows, userid, pax, ings)[k].quantity
    ensures Deducted(rows, userid, pax, ings)[k].quantity < 0.0 <==> ings[j].quantity < ings[j].used_amount * pax as real
  {
    DeductedRow(rows, userid, pax, ings, k);
    var rows' := rows[k := rows[k].(quantity := stored)];
    DeductedRow(rows', userid, pax, ings, k);
  }

  /** When two entries share a name, the later one's value is what remains. */
  lemma LaterEntryWins(rows: seq<Grocery>, userid: int, pax: int, first: UsedIngredient, second: UsedIngredient, k: int)
    requires 0 <= k < |rows| && rows[k].userid == userid
    requires first.ingredient_name == rows[k].name && second.ingredient_name == rows[k].name
    ensures Deducted(rows, userid, pax, [first, second])[k].quantity == Remaining(second, pax)
  {
    DeductedRow(rows, userid, pax, [first, second], k);
  }

  /** POST `/`: validate, overwrite quantities ingredient by ingredient, then
      insert one `calculations` row with `portionwasted = 0` and answer with its
      id. `insertFails` stands for an error returned by the insert, which the
      route answers with 500 after the quantities have already been written. */
  method Cook(db: Database, userid: Option<int>, recipeid: Option<int>, pax: Option<int>,
              ingredientsUsed: Option<seq<UsedIngredient>>, insertFails: bool)
    returns (status: int, calculationid: Option<int>)
    requires db.Valid()
    modifies db
    ensures db.Valid()
    ensures !RequestComplete(userid, recipeid, pax, ingredientsUsed) ==>
      status == BadRequest && calculationid == None && unchanged(db)
    ensures RequestComplete(userid, recipeid, pax, ingredientsUsed) ==>
      db.groceries == Deducted(old(db.groceries), userid.value, pax.value, ingredientsUsed.value)
      && db.calculation == old(db.calculation) && db.nextGroceryId == old(db.nextGroceryId)
    ensures RequestComplete(userid, recipeid, pax, ingredientsUsed) && insertFails ==>
      status == ServerError && calculationid == None
      && db.calculations == old(db.calculations) && db.nextCalculationId == old(db.nextCalculationId)
    ensures RequestComplete(userid, recipeid, pax, ingredientsUsed) && !insertFails ==>
      status == Ok && calculationid == Some(old(db.nextCalculationId))
      && db.calculations == old(db.calculations)
         + [Calculation(old(db.nextCalculationId), userid.value, recipeid.value, pax.value, ingredientsUsed.value, Some(0.0))]
    ensures calculationid.Some? ==>
      forall i :: 0 <= i < |db.calculations| - 1 ==> db.calculations[i].calculationid != calculationid.value
  {
    if !RequestComplete(userid, recipeid, pax, ingredientsUsed) {
      return BadRequest, None;
    }
    var uid, p, ings := userid.value, pax.value, ingredientsUsed.value;
    var i := 0;
    while i < |ings|
      invariant 0 <= i <= |ings|
      invariant db.groceries == Deducted(old(db.groceries), uid, p, ings[..i])
      invariant |db.groceries| == |old(db.groceries)|
      invariant forall k :: 0 <= k < |db.groceries| ==> db.groceries[k].groceryid == old(db.groceries)[k].groceryid
      invariant db.calculations == old(db.calculations) && db.calculation == old(db.calculation)
      invariant db.nextGroceryId == old(db.nextGroceryId) && db.nextCalculationId == old(db.nextCalculationId)
    {
      var ingredient := ings[i];
      db.groceries := SetQuantityWhere(db.groceries, ingredient.ingredient_name, uid, Remaining(ingredient, p));
      assert ings[..i + 1][..i] == ings[..i];
      i := i + 1;
    }
    assert ings[..|ings|] == ings;
    if insertFails {
      return ServerError, None;
    }
    var id := db.nextCalculationId;
    db.calculations := db.calculations + [Calculation(id, uid, recipeid.value, p, ings, Some(0.0))];
    db.nextCalculationId := id + 1;
    return Ok, Some(id);
  }

  /** The `portionwasted` field of the waste request's body. */
  datatype WasteValue = Undefined | Null | Amount(amount: real)

  /** The column value `update({ portionwasted })` writes: `null` stays NULL. */
  function WasteColumn(v: WasteValue): Option<real>
    requires !v.Undefined?
  {
    if v.Null? then None else Some(v.amount)
  }

  /** `update({ portionwasted: w }).eq("calculationid", id)` on a table of calculations. */
  function SetWasteWhere(rows: seq<Calculation>, id: int, w: Option<real>): (r: seq<Calculation>)
    ensures |r| == |rows|
    ensures forall k :: 0 <= k < |rows| ==>
      r[k] == if rows[k].calculationid == id then rows[k].(portionwasted := w) else rows[k]
  {
    if rows == [] then []
    else
      [if rows[0].calculationid == id then rows[0].(portionwasted := w) else rows[0]]
      + SetWasteWhere(rows[1..], id, w)
  }

  /** PUT `/waste/:calculationid` as written: only an `undefined` amount is
      refused; the update goes to the table `calculation`, and the answer is 200
      whether or not a row matched. The `calculations` rows that cooking
      created are never touched. */
  method RecordWaste(db: Database, calculationid: int, portionwasted: WasteValue) returns (status: int)
    modifies db
    ensures portionwasted.Undefined? ==> status == BadRequest && unchanged(db)
    ensures !portionwasted.Undefined? ==>
      status == Ok && db.calculation == SetWasteWhere(old(db.calculation), calculationid, WasteColumn(portionwasted))
    ensures db.calculations == old(db.calculations) && db.groceries == old(db.groceries)
    ensures db.nextCalculationId == old(db.nextCalculationId) && db.nextGroceryId == old(db.nextGroceryId)
  {
    if portionwasted.Undefined? {
      return BadRequest;
    }
    db.calculation := SetWasteWhere(db.calculation, calculationid, WasteColumn(portionwasted));
    return Ok;
  }

  /** The waste route with the update aimed at `calculations`, the table cooking fills. */
  method RecordWasteCorrected(db: Database, calculationid: int, portionwasted: WasteValue) returns (status: int)
    requires db.Valid()
    modifies db
    ensures db.Valid()
    ensures portionwasted.Undefined? ==> status == BadRequest && unchanged(db)
    ensures !portionwasted.Undefined? ==>
      status == Ok && db.calculations == SetWasteWhere(old(db.calculations), calculationid, WasteColumn(portionwasted))
    ensures db.calculation == old(db.calculation) && db.groceries == old(db.groceries)
    ensures db.nextCalculationId == old(db.nextCalculationId) && db.nextGroceryId == old(db.nextGroceryId)
  {
    if portionwasted.Undefined? {
      return BadRequest;
    }
    db.calculations := SetWasteWhere(db.calculations, calculationid, WasteColumn(portionwasted));
    return Ok;
  }

  /** Cooking and then logging waste against the id the cook route returned,
      as written: the cooking event still reads 0 wasted portions. */
  method CookThenLogWaste(db: Database, userid: int, recipeid: int, pax: int,
                          ings: seq<UsedIngredient>, wasted: real)
    returns (event: Calculation)
    requires db.Valid() && userid != 0 && recipeid != 0 && pax != 0
    modifies db
    ensures event.calculationid == old(db.nextCalculationId) && event in db.calculations
    ensures event.portionwasted == Some(0.0)
  {
    var status, id := Cook(db, Some(userid), Some(recipeid), Some(pax), Some(ings), false);
    status := RecordWaste(db, id.value, Amount(wasted));
    event := db.calculations[|db.calculations| - 1];
  }

  /** The same sequence with the corrected waste route: the cooking event reads
      the wasted portions that were logged. */
  method CookThenLogWasteCorrected(db: Database, userid: int, recipeid: int, pax: int,
                                   ings: seq<UsedIngredient>, wasted: real)
    returns (event: Calculation)
    requires db.Valid() && userid != 0 && recipeid != 0 && pax != 0
    modifies db
    ensures event.calculationid == old(db.nextCalculationId) && event in db.calculations
    ensures event.portionwasted == Some(wasted)
  {
    var status, id := Cook(db, Some(userid), Some(recipeid), Some(pax), Some(ings), false);
    status := RecordWasteCorrected(db, id.value, Amount(wasted));
    event := db.calculations[|db.calculations| - 1];
  }
}
