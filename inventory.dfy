/**
 * The two list operations of client/src/components/Inventory.js: grouping the
 * user's groceries by purchase date for display, and dropping a grocery from
 * the list once the server has deleted it.
 */
module Inventory {
  import opened Wrappers
  import opened Tables
  import opened Js

  /** `grocery.date_of_purchase || "Unknown Date"`: a missing or empty date is falsy. */
  function DateKey(g: Grocery): string {
    if g.date_of_purchase.Some? && g.date_of_purchase.value != "" then g.date_of_purchase.value else "Unknown Date"
  }

  /** The groceries a group holds. */
  function OnDate(key: string): Grocery -> bool {
    (g: Grocery) => DateKey(g) == key
  }

  /** The keys of the grouping object in the order they were first assigned. */
  function Keys(groceries: seq<Grocery>): seq<string>
    decreases |groceries|
  {
    if groceries == [] then []
    else
      var keys := Keys(groceries[..|groceries| - 1]);
      var key := DateKey(groceries[|groceries| - 1]);
      if key in keys then keys else keys + [key]
  }

  predicate Distinct(keys: seq<string>) {
    forall i, j :: 0 <= i < j < |keys| ==> keys[i] != keys[j]
  }

  /** The keys are exactly the dates that occur, each once. */
  lemma {:induction false} KeysSpec(groceries: seq<Grocery>)
    ensures Distinct(Keys(groceries))
    ensures forall key :: key in Keys(groceries) <==> exists i :: 0 <= i < |groceries| && DateKey(groceries[i]) == key
    decreases |groceries|
  {
    if groceries != [] {
      var front := groceries[..|groceries| - 1];
      KeysSpec(front);
      forall key | key in Keys(groceries)
        ensures exists i :: 0 <= i < |groceries| && DateKey(groceries[i]) == key
      {
        if key in Keys(front) {
          var i :| 0 <= i < |front| && DateKey(front[i]) == key;
          assert groceries[i] == front[i];
        }
      }
      forall key | exists i :: 0 <= i < |groceries| && DateKey(groceries[i]) == key
        ensures key in Keys(groceries)
      {
        var i :| 0 <= i < |groceries| && DateKey(groceries[i]) == key;
        if i < |front| {
          assert front[i] == groceries[i];
        }
      }
    }
  }

  /** `groups` and `keys` are the grouping of `done`. */
  ghost predicate Grouped(done: seq<Grocery>, groups: map<string, seq<Grocery>>, keys: seq<string>) {
    && keys == Keys(done)
    && (forall key :: key in groups <==> key in keys)
    && (forall key :: key in groups ==> groups[key] == Filter(done, OnDate(key)))
  }

  /** One step of the reduce keeps the grouping. */
  lemma GroupStep(done: seq<Grocery>, g: Grocery, groups: map<string, seq<Grocery>>, keys: seq<string>)
    requires Grouped(done, groups, keys)
    ensures var date := DateKey(g);
      var started := if date in groups then groups else groups[date := []];
      Grouped(done + [g], started[date := started[date] + [g]], if date in groups then keys else keys + [date])
  {
    var date := DateKey(g);
    var started := if date in groups then groups else groups[date := []];
    var after := started[date := started[date] + [g]];
    var keys' := if date in groups then keys else keys + [date];
    var done' := done + [g];
    assert done'[..|done'| - 1] == done && done'[|done'| - 1] == g;
    assert Keys(done') == keys';
    if date !in groups {
      KeysSpec(done);
      forall i | 0 <= i < |done| ensures !OnDate(date)(done[i]) {
      }
      FilterNone(done, OnDate(date));
    }
    forall key | key in after ensures after[key] == Filter(done', OnDate(key)) {
      FilterAppend(done, [g], OnDate(key));
    }
    assert forall key :: key in after <==> key in keys';
  }

  /** `groceries.reduce(...)` over an object `acc` that gains a key the first
      time a date is seen and has each grocery pushed onto its date's array.
      Returns the object and the order of its keys. */
  method GroupByDateOfPurchase(groceries: seq<Grocery>) returns (groups: map<string, seq<Grocery>>, keys: seq<string>)
    ensures keys == Keys(groceries)
    ensures forall key :: key in groups <==> key in keys
    ensures forall key :: key in groups ==> groups[key] == Filter(groceries, OnDate(key))
  {
    groups := map[];
    keys := [];
    for i := 0 to |groceries|
      invariant Grouped(groceries[..i], groups, keys)
    {
      var grocery := groceries[i];
      var date := DateKey(grocery);
      GroupStep(groceries[..i], grocery, groups, keys);
      assert groceries[..i + 1] == groceries[..i] + [grocery];
      if date !in groups {
        groups := groups[date := []];
        keys := keys + [date];
      }
      groups := groups[date := groups[date] + [grocery]];
    }
    assert groceries[..|groceries|] == groceries;
  }

  /** Every grocery is in the group of its own date and in no other, and a
      group keeps the groceries in their order in the list. */
  lemma ExactlyOneGroup(groceries: seq<Grocery>, i: int, key: string)
    requires 0 <= i < |groceries|
    ensures DateKey(groceries[i]) in Keys(groceries)
    ensures groceries[i] in Filter(groceries, OnDate(DateKey(groceries[i])))
    ensures key != DateKey(groceries[i]) ==> groceries[i] !in Filter(groceries, OnDate(key))
  {
    KeysSpec(groceries);
    FilterSpec(groceries, OnDate(DateKey(groceries[i])));
    FilterSpec(groceries, OnDate(key));
  }

  /** Groceries without a date, or with an empty one, are shown under "Unknown Date". */
  lemma UndatedGroup(groceries: seq<Grocery>, i: int)
    requires 0 <= i < |groceries|
    requires groceries[i].date_of_purchase == None || groceries[i].date_of_purchase == Some("")
    ensures "Unknown Date" in Keys(groceries)
    ensures groceries[i] in Filter(groceries, OnDate("Unknown Date"))
  {
    ExactlyOneGroup(groceries, i, "Unknown Date");
  }

  /** The sum of the sizes of the groups under `keys`. */
  function Total(keys: seq<string>, groceries: seq<Grocery>): nat {
    if keys == [] then 0 else |Filter(groceries, OnDate(keys[0]))| + Total(keys[1..], groceries)
  }

  lemma {:induction false} TotalAppendKey(keys: seq<string>, key: string, groceries: seq<Grocery>)
    ensures Total(keys + [key], groceries) == Total(keys, groceries) + |Filter(groceries, OnDate(key))|
  {
    if keys != [] {
      assert (keys + [key])[1..] == keys[1..] + [key];
      TotalAppendKey(keys[1..], key, groceries);
    }
  }

  /** One more grocery adds one to the group of its date, if that date is among the keys. */
  lemma {:induction false} TotalAppendGrocery(keys: seq<string>, groceries: seq<Grocery>, g: Grocery)
    requires Distinct(keys)
    ensures Total(keys, groceries + [g]) == Total(keys, groceries) + (if DateKey(g) in keys then 1 else 0)
  {
    if keys != [] {
      FilterAppend(groceries, [g], OnDate(keys[0]));
      TotalAppendGrocery(keys[1..], groceries, g);
      assert DateKey(g) in keys <==> DateKey(g) == keys[0] || DateKey(g) in keys[1..];
    }
  }

  /** The groups together hold as many groceries as the list. */
  lemma {:induction false} GroupSizesSum(groceries: seq<Grocery>)
    ensures Total(Keys(groceries), groceries) == |groceries|
    decreases |groceries|
  {
    if groceries != [] {
      var front := groceries[..|groceries| - 1];
      var g := groceries[|groceries| - 1];
      assert groceries == front + [g];
      GroupSizesSum(front);
      KeysSpec(front);
      TotalAppendGrocery(Keys(front), front, g);
      if DateKey(g) !in Keys(front) {
        var key := DateKey(g);
        forall i | 0 <= i < |front| ensures !OnDate(key)(front[i]) {
        }
        FilterNone(front, OnDate(key));
        FilterAppend(front, [g], OnDate(key));
        TotalAppendKey(Keys(front), key, groceries);
      }
    }
  }

  /** The list after `handleDeleteGrocery`: without every entry of that id
      once the delete request succeeded, as it was when it failed. */
  function AfterDelete(groceries: seq<Grocery>, groceryId: int, deleted: bool): seq<Grocery> {
    if deleted then Filter(groceries, OtherGrocery(groceryId)) else groceries
  }

  function OtherGrocery(groceryId: int): Grocery -> bool {
    (g: Grocery) => g.groceryid != groceryId
  }

  /** After a successful delete no entry of that id is left and every other
      entry is; after a failed one the list is as it was. */
  lemma DeleteSpec(groceries: seq<Grocery>, groceryId: int, deleted: bool)
    ensures !deleted ==> AfterDelete(groceries, groceryId, deleted) == groceries
    ensures deleted ==> forall g :: g in AfterDelete(groceries, groceryId, deleted) <==>
      g in groceries && g.groceryid != groceryId
    ensures |AfterDelete(groceries, groceryId, deleted)| <= |groceries|
  {
    FilterSpec(groceries, OtherGrocery(groceryId));
  }

  /** A successful delete keeps the order and the repetitions of the list:
      it works entry by entry, and an entry stays exactly when its id differs. */
  lemma DeleteKeepsOrder(a: seq<Grocery>, b: seq<Grocery>, g: Grocery, groceryId: int)
    ensures AfterDelete(a + b, groceryId, true) == AfterDelete(a, groceryId, true) + AfterDelete(b, groceryId, true)
    ensures AfterDelete([g], groceryId, true) == if g.groceryid != groceryId then [g] else []
  {
    FilterAppend(a, b, OtherGrocery(groceryId));
    assert [g][1..] == [];
  }

  /** Deleting the same grocery again changes nothing. */
  lemma DeleteIdempotent(groceries: seq<Grocery>, groceryId: int)
    ensures AfterDelete(AfterDelete(groceries, groceryId, true), groceryId, true) == AfterDelete(groceries, groceryId, true)
  {
    var once := AfterDelete(groceries, groceryId, true);
    FilterSpec(groceries, OtherGrocery(groceryId));
    forall i | 0 <= i < |once| ensures OtherGrocery(groceryId)(once[i]) {
      assert once[i] in once;
    }
    FilterAll(once, OtherGrocery(groceryId));
  }

  /** A list without an entry of that id is left as it is, and one with such
      an entry gets shorter. */
  lemma DeleteShrinks(groceries: seq<Grocery>, groceryId: int)
    ensures (forall i :: 0 <= i < |groceries| ==> groceries[i].groceryid != groceryId) ==>
      AfterDelete(groceries, groceryId, true) == groceries
    ensures (exists i :: 0 <= i < |groceries| && groceries[i].groceryid == groceryId) ==>
      |AfterDelete(groceries, groceryId, true)| < |groceries|
  {
    if forall i :: 0 <= i < |groceries| ==> groceries[i].groceryid != groceryId {
      FilterAll(groceries, OtherGrocery(groceryId));
    }
    if exists i :: 0 <= i < |groceries| && groceries[i].groceryid == groceryId {
      var i :| 0 <= i < |groceries| && groceries[i].groceryid == groceryId;
      FilterDrops(groceries, OtherGrocery(groceryId), i);
    }
  }
}
