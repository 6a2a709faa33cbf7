# Grocery, recipe and food-waste server: a Dafny model

This project models the server logic of a grocery-inventory and recipe application (an Express server over a
PostgreSQL database, with a React client), together with the two list operations of the client's inventory view.
The database tables are Dafny sequences of row datatypes. The routes that update tables step by step (cooking,
logging waste, uploading a bill) are module-level methods that take a `Database` object, whose fields are the
tables, and modify it. The routes that only read
tables, or compute a new table from an old one, are functions over table values.

- `wrappers.dfy`: `Option`.
- `js.dfy`: the JavaScript built-ins the routes rely on. These are `trim`, ASCII `toLowerCase`, `split`/`join`
  on a character, `filter`, `every` and `some`, each with its characterising lemmas.
- `tables.dfy`: the rows of the `groceries`, `recipes` and `calculations` tables, the HTTP status codes and the
  `Database` class.
- `cook.dfy`: `POST /api/cook` (the quantity overwrite loop and the cooking event) and `PUT /api/cook/waste/:id`.
- `recipe_filter.dfy`: the step both recommendation routes share. It parses every recipe's ingredients (any
  failure fails the request) and keeps, in order, the recipes that pass a test.
- `recommendation.dfy`: `GET /recommend/:userid`, matching on the trimmed, lower-cased name alone.
- `recipes.dfy`: recipe create, update and delete, and `GET /recommended`, which matches on name, unit and a
  single sufficient row.
- `calculator.dfy`: the leftovers SQL statement as a chain of functions.
- `bill_parser.dfy`: the bill reader. It covers the preprocessing, the line-grouping scan (`parseGroceryText`),
  the token-position item reader (`processItem`), validation of each item, and the one-call insert of the
  upload route.
- `inventory.dfy`: grouping the inventory by purchase date, and the list update after a delete.

Cooking does no oldest-first batch consumption, no unit conversion and no deletion of empty batches: every
row of the user whose name equals an ingredient name gets `quantity - used_amount * pax` written over it.

## Model

| member | source | states |
|---|---|---|
| CookRoutes.SetQuantityWhere | server/routes/cookRoutes.js:18-22 | The update keeps every row. A row gets the new quantity exactly when its name and user match; every other row is unchanged. |
| CookRoutes.DeductedRow | server/routes/cookRoutes.js:16-23 | After the loop, a row of the user whose name some entry carries holds the quantity computed from the last such entry. Every other row is as it was. |
| CookRoutes.UntouchedRow | server/routes/cookRoutes.js:18-22 | Rows of other users, and rows whose name no entry carries, are left alone. |
| CookRoutes.OnlyQuantityChanges | server/routes/cookRoutes.js:20 | No column other than quantity changes in any row. |
| CookRoutes.QuantityFromRequest | server/routes/cookRoutes.js:17 | The written quantity is the caller's quantity minus used amount times servings, whatever the row held before. It is negative exactly when the caller's quantity is below the amount used. |
| CookRoutes.LaterEntryWins | server/routes/cookRoutes.js:16-22 | Of two entries with the same name, the later one's value remains. |
| CookRoutes.Cook | server/routes/cookRoutes.js:7-52 | A falsy field gives 400 with no change. Otherwise the quantities are overwritten as `Deducted` says. A failed insert then gives 500 with the quantities already written. Success gives 200 and the id of one new calculations row holding `portionwasted = 0`. |
| CookRoutes.SetWasteWhere | server/routes/cookRoutes.js:68-71 | Rows with the id get the new `portionwasted`; every other row is unchanged. |
| CookRoutes.RecordWaste | server/routes/cookRoutes.js:59-77 | As written: only an undefined amount gives 400. The update goes to table `calculation` with 200 whether or not a row matched, and `calculations` is untouched. |
| CookRoutes.RecordWasteCorrected | server/routes/cookRoutes.js:59-77 | The same route updating `calculations`, the table cooking fills. |
| CookRoutes.CookThenLogWaste | server/routes/cookRoutes.js:26-71 | Cooking and then logging waste for the returned id leaves the cooking event at 0 wasted portions. |
| CookRoutes.CookThenLogWasteCorrected | server/routes/cookRoutes.js:26-71 | With the corrected route, the cooking event holds the logged amount. |
| RecipeFilter.KeepCoveredSpec | server/routes/recommendationRoutes.js:39-55 | The request fails exactly when some recipe's ingredients do not parse. Otherwise a fetched recipe is kept exactly when its ingredients pass the test, and only fetched recipes are kept. |
| RecipeFilter.KeptParse | server/routes/recommendationRoutes.js:40 | Every recipe kept had ingredients that parsed. |
| RecipeFilter.KeepCoveredAppend | server/routes/recommendationRoutes.js:39-55 | The fetched order is kept: filtering a concatenation gives the concatenation of the filtered parts. |
| RecipeFilter.KeepCoveredMonotone | server/routes/recipeRoutes.js:96-106 | A weaker test keeps at least the same recipes. |
| RecipeFilter.KeepCoveredCongruent | server/routes/recipeRoutes.js:96-106 | Two tests that agree on every ingredient list keep the same recipes. |
| RecommendationRoutes.AllInStockIff | server/routes/recommendationRoutes.js:43-45 | A recipe matches exactly when each ingredient's trimmed, lower-cased name is the key of some stocked row. |
| RecommendationRoutes.Entries | server/routes/recommendationRoutes.js:47-53 | One entry per kept recipe, in order, with its id, name and parsed ingredients. |
| RecommendationRoutes.RecommendSpec | server/routes/recommendationRoutes.js:39-59 | 500 exactly when some recipe does not parse. Otherwise 200, with an entry for a recipe exactly when all its ingredients are in stock, and no other entries. |
| RecommendationRoutes.EntriesAppend | server/routes/recommendationRoutes.js:47-55 | Entries of a concatenation are the concatenated entries. |
| RecommendationRoutes.RecommendAppend | server/routes/recommendationRoutes.js:39-55 | The answer keeps the fetched order of recipes. |
| RecommendationRoutes.EmptyRecipeRecommended | server/routes/recommendationRoutes.js:43-45 | A recipe with no ingredients is always recommended. |
| RecommendationRoutes.CoveredByMoreRows | server/routes/recommendationRoutes.js:44 | A name covered by some rows stays covered by more rows. |
| RecommendationRoutes.SameRowsSameMatches | server/routes/recommendationRoutes.js:43-45 | Whether a recipe matches depends only on which rows are stocked, not on their order or repetition. |
| RecommendationRoutes.StockTestsAgree | server/routes/recommendationRoutes.js:43-45 | Stocks with the same rows give the same test on every ingredient list. |
| RecommendationRoutes.StockRows | server/routes/recommendationRoutes.js:13-17 | A row is in stock exactly when it belongs to the user and its quantity is positive. |
| RecommendationRoutes.GroceryOrderIrrelevant | server/routes/recommendationRoutes.js:13-59 | The answer does not depend on the order of grocery rows. |
| RecommendationRoutes.IngredientOrderIrrelevant | server/routes/recommendationRoutes.js:43-45 | A recipe matches alike whatever the order of its ingredients. |
| RecommendationRoutes.AllInStockMonotone | server/routes/recommendationRoutes.js:43-45 | A recipe covered by some rows stays covered when rows are added. |
| RecommendationRoutes.MoreGroceriesKeepMatches | server/routes/recommendationRoutes.js:13-59 | Adding grocery rows keeps the status and removes no recipe from the answer. |
| RecommendationRoutes.ForeignOrEmptyRowIgnored | server/routes/recommendationRoutes.js:15-17 | Rows of other users, and rows with no positive quantity, change nothing. |
| RecommendationRoutes.PresenceNotQuantity | server/routes/recommendationRoutes.js:43-45 | Any stocked row with a matching key covers an ingredient, whatever quantity either holds. |
| RecommendationRoutes.KeyIgnoresPadding | server/routes/recommendationRoutes.js:44 | Names match whatever white space surrounds them. |
| RecipeRoutes.UpdateWhere | server/routes/recipeRoutes.js:47-52 | Rows with the id get the body's fields and keep their id; every other row is unchanged. |
| RecipeRoutes.PostSpec | server/routes/recipeRoutes.js:17-35 | 400 and no insert exactly for a missing name or an empty or missing ingredient list. Otherwise 201 and one row appended under a fresh id. |
| RecipeRoutes.DeleteAfterPost | server/routes/recipeRoutes.js:64-77 | Deleting the recipe just added gives 200 and the table as it was. |
| RecipeRoutes.PutSpec | server/routes/recipeRoutes.js:38-61 | 400 exactly for an unacceptable body, and 404 exactly when no row has the id; neither changes the table. An acceptable body with a present id gets 200, which rewrites exactly the rows with the id. |
| RecipeRoutes.PutIdempotent | server/routes/recipeRoutes.js:47-52 | Sending the same update twice equals sending it once. |
| RecipeRoutes.DeleteSpec | server/routes/recipeRoutes.js:64-77 | 404 with no change exactly when no row has the id. Otherwise 200, the table shrinks, and exactly the rows with another id remain. |
| RecipeRoutes.FeasibleIff | server/routes/recipeRoutes.js:96-106 | A recipe is recommended exactly when each ingredient has one grocery row with an equal lower-cased name, an equal lower-cased unit and at least the quantity. |
| RecipeRoutes.RecommendedSpec | server/routes/recipeRoutes.js:80-113 | 500 exactly when some recipe does not parse. Otherwise 200, with a recipe listed exactly when it is feasible, and only fetched recipes listed. |
| RecipeRoutes.RecommendedAppend | server/routes/recipeRoutes.js:96-106 | The answer keeps the fetched order of recipes. |
| RecipeRoutes.EmptyRecipeRecommended | server/routes/recipeRoutes.js:97 | A recipe with no ingredients is always recommended. |
| RecipeRoutes.PerRowNotSummed | server/routes/recipeRoutes.js:98-103 | Sufficiency is per row: two 300 g rows do not cover 500 g. |
| RecipeRoutes.NamesNotTrimmed | server/routes/recipeRoutes.js:86 | Names are lower-cased but not trimmed, so " rice" does not match "rice". |
| RecipeRoutes.OwnerIrrelevant | server/routes/recipeRoutes.js:82 | Rows of every user are consulted: changing a row's owner changes nothing. |
| RecipeRoutes.MoreGroceriesKeepRecommended | server/routes/recipeRoutes.js:96-106 | Adding grocery rows keeps the status and removes no recipe from the answer. |
| CalculatorRoutes.Leftover | server/routes/calculatorRoutes.js:37 | The leftover is never negative. It is available minus required when that is not negative, and 0 otherwise. |
| CalculatorRoutes.JoinRowsSpec | server/routes/calculatorRoutes.js:33-43 | One row per ingredient, in order, with its name, its required quantity, the sum available under that name and the clamped difference. |
| CalculatorRoutes.RecipeIngredientsFails | server/routes/calculatorRoutes.js:9-16 | The statement fails exactly when a recipe with the id has ingredients that are not a JSON array. |
| CalculatorRoutes.SingleRecipeIngredients | server/routes/calculatorRoutes.js:9-23 | With one recipe of the id, the ingredients joined are exactly its own. |
| CalculatorRoutes.NoRecipeNoRows | server/routes/calculatorRoutes.js:8-51 | An id no recipe has selects no ingredients, and the handler answers 200 with no rows, not 404. |
| CalculatorRoutes.AvailableAppend | server/routes/calculatorRoutes.js:24-32 | The available sum is additive over the grocery table. |
| CalculatorRoutes.AvailableNone | server/routes/calculatorRoutes.js:36 | With no row of that exact name, 0 is available. |
| CalculatorRoutes.AddedRow | server/routes/calculatorRoutes.js:24-32 | A row adds its quantity under its own name, whoever owns it and whatever its unit. |
| CalculatorRoutes.AvailableOrderIrrelevant | server/routes/calculatorRoutes.js:24-32 | The sum does not depend on the order of the rows. |
| GroceryOcrRoutes.FixThousandsPointwise | server/routes/groceryOCRRoutes.js:120 | The comma rewrite keeps the length and changes exactly the commas followed by three digits, into dots. |
| GroceryOcrRoutes.PreprocessSpec | server/routes/groceryOCRRoutes.js:120 | No `\|`, `’` or capital I survives. Every character is the stripped text's, except that a comma before three digits becomes a dot. |
| GroceryOcrRoutes.TrimAll | server/routes/groceryOCRRoutes.js:130 | Each line is trimmed and none is lost. |
| GroceryOcrRoutes.StartsItemAppend | server/routes/groceryOCRRoutes.js:126 | Text appended to a line that opens an item still opens one. |
| GroceryOcrRoutes.FoldSizes | server/routes/groceryOCRRoutes.js:129-141 | The scan closes one non-empty chunk for each line after the first that opens an item. |
| GroceryOcrRoutes.FoldLater | server/routes/groceryOCRRoutes.js:129-141 | Every chunk but the first starts with an item-opening line. |
| GroceryOcrRoutes.FoldFirst | server/routes/groceryOCRRoutes.js:129-141 | The first chunk is non-empty. It opens an item when the first line does; otherwise it starts with a space. |
| GroceryOcrRoutes.ChunkCount | server/routes/groceryOCRRoutes.js:129-146 | One chunk per item-opening line after the first, plus the first chunk. All are non-empty, all but the first open an item, and the first opens one exactly when the first line does. |
| GroceryOcrRoutes.FoldStep | server/routes/groceryOCRRoutes.js:132-140 | One line read either closes the current chunk and opens a new one, or appends a space and the line. |
| GroceryOcrRoutes.FoldPrefix | server/routes/groceryOCRRoutes.js:134-135 | The chunks handed on so far are a prefix of all chunks. |
| GroceryOcrRoutes.CrashStays | server/routes/groceryOCRRoutes.js:134-135 | A throw in an earlier chunk is a throw of the whole parse. |
| GroceryOcrRoutes.ConcatSpacedJoin | server/routes/groceryOCRRoutes.js:170-172 | The name loop joins the tokens with single spaces and leaves one trailing space. |
| GroceryOcrRoutes.ItemFromTokensSpec | server/routes/groceryOCRRoutes.js:154-181 | No item exactly when the first token is not digits and a dot. A throw exactly when it is, but there are fewer than four tokens. Otherwise the item is the trimmed second token, the middle tokens and `temp` as the name, with the last two tokens as quantity and price. |
| GroceryOcrRoutes.PercentEndsName | server/routes/groceryOCRRoutes.js:162-165 | A discount token such as "5%" ends the name. The token after it is dropped, because the `concat` result is discarded. |
| GroceryOcrRoutes.ProcessItem | server/routes/groceryOCRRoutes.js:152-185 | The name-building loop computes what `ItemOf` says. |
| GroceryOcrRoutes.CollectCrash | server/routes/groceryOCRRoutes.js:118-149 | The parse throws exactly when one chunk makes `processItem` throw. |
| GroceryOcrRoutes.CollectAppend | server/routes/groceryOCRRoutes.js:129-146 | Items come out in text order. |
| GroceryOcrRoutes.CollectOne | server/routes/groceryOCRRoutes.js:135 | A chunk contributes exactly its own item, none, or a throw. |
| GroceryOcrRoutes.ParseGroceryText | server/routes/groceryOCRRoutes.js:118-149 | The line loop computes `ParsedItems`: preprocess, split on newlines, trim, group into chunks, then `processItem` each chunk in order. |
| GroceryOcrRoutes.ValidateItems | server/routes/groceryOCRRoutes.js:59-77 | Fails exactly when some item is refused. Otherwise each item, checked with unit "pcs" and today's date, appears in order with the numbers the check read. |
| GroceryOcrRoutes.InsertedFresh | server/routes/groceryOCRRoutes.js:79-90 | Every id the insert hands out differs from every id already in the table and from every other new id. The table with the new rows keeps every id below the next one. |
| GroceryOcrRoutes.InsertedRows | server/routes/groceryOCRRoutes.js:65-90 | Every inserted row belongs to the path's user, holds unit "pcs" and today's date, and carries the name of the item in the same place. |
| GroceryOcrRoutes.UploadBill | server/routes/groceryOCRRoutes.js:23-115 | No file gives 400, and an OCR failure or a throwing parse gives 500. No items or a refused item gives 400, and a failed insert gives 500; none of these changes the database. Success gives 200 with the parsed items, after appending one row per item. |
| Inventory.KeysSpec | client/src/components/Inventory.js:57-64 | The group keys are distinct and are exactly the dates that occur. |
| Inventory.GroupStep | client/src/components/Inventory.js:58-63 | One step of the reduce keeps the object a grouping of the groceries seen. |
| Inventory.GroupByDateOfPurchase | client/src/components/Inventory.js:57-64 | The keys come in first-seen order, the object has exactly those keys, and each group holds the groceries of its date in list order. |
| Inventory.ExactlyOneGroup | client/src/components/Inventory.js:57-64 | Every grocery is in the group of its own date and in no other. |
| Inventory.UndatedGroup | client/src/components/Inventory.js:59 | A grocery with a missing or empty date is shown under "Unknown Date". |
| Inventory.GroupSizesSum | client/src/components/Inventory.js:57-64 | The group sizes add up to the number of groceries. |
| Inventory.DeleteSpec | client/src/components/Inventory.js:45-54 | After a successful delete, exactly the entries with another id remain. After a failed one, the list is unchanged. |
| Inventory.DeleteKeepsOrder | client/src/components/Inventory.js:48 | The delete works entry by entry: it distributes over concatenation, and a single entry stays exactly when its id differs. So order and repetitions are kept. |
| Inventory.DeleteIdempotent | client/src/components/Inventory.js:48 | Deleting the same id twice equals deleting it once. |
| Inventory.DeleteShrinks | client/src/components/Inventory.js:48 | A list without that id is unchanged, and one with it gets shorter. |

## Left out

- Every database call runs through its client. An error from the two inserts (cooking event, bill items) is a boolean parameter (`insertFails`). The read routes model only what follows a successful read.
- CookRoutes.Cook: the `error` of each per-ingredient update is never checked. A failed update leaves its rows as they were, and the route still goes on to the insert and 200. The model assumes every update takes effect.
- CookRoutes.RecordWaste: the update's error is never checked, so the route answers 200 even when the update fails. The model assumes the update takes effect; RecordWasteCorrected makes the same assumption.
- RecipeRoutes.Post, RecipeRoutes.Put, RecipeRoutes.Delete: when the query throws, the routes answer 500 and the table is as the database left it. These functions have no 500 outcome: they model a query that succeeds.
- The cook, waste and upload routes and `GET /recommend/:userid` call `supabase`, which `server/db.js` does not export (it exports a `pg` pool). As written, every such call throws and these routes answer 500 through their `catch`. The model describes these routes as if the client were present.
- The upload route's inner `catch` answers 500 and then falls through to the 200 answer, a second response Express refuses. The model stops at the first answer.
- Quantities and prices are `real`. JavaScript doubles, `NUMERIC`, `parseFloat` and `NaN` are not modelled. The bill parser keeps quantity and price as the raw tokens.
- `toLowerCase` is modelled on ASCII letters only; other letters are left as they are.
- Text recognition (Tesseract), file upload (multer), removal of the uploaded file, and the expiry date computed from the grocery category enum are left out. Recognised text and today's date are parameters.
- The Joi schema is the `validate` parameter. Its string-length, positivity and date rules are not spelled out.
- Path parameters are modelled as integers, and ids compare as integers.
- SQL results come back in table order. The database does not promise an order, so lemmas about order hold for that order.
- The leftovers SQL reads `g.item_name` and `recipes.id`. Neither column appears anywhere else in the source: groceries have `name` and recipes have `recipeid`. So the statement most likely fails and the route answers 500. The model reads the two columns as the grocery name and the recipe id, and describes the statement as if they existed.
- `GET /recipes` is a plain pass-through of the table and is not modelled.
- The React UI (forms, charts, alerts, HTTP calls from the client) is not modelled. Only the grouping and the post-delete list update of the inventory view are.
- Inventory.GroupByDateOfPurchase: JavaScript lists integer-like object keys first, in numeric order. A date key is never integer-like, so first-seen order is modelled. A date string that names an `Object.prototype` member (such as "constructor") would make the push throw; this is not modelled.
- CookRoutes.Cook: the id, recipe id and servings are integers. JavaScript truthiness of other types (strings, booleans) is not modelled.
- CookRoutes.Cook: the model takes `used_amount` as a number in every entry. The only client, `client/src/components/CookingManager.js:50`, sends the recommendation's `grocerymatched` list. Those entries are recipe ingredients (`ingredient_name`, `quantity`, `unit`) and have no `used_amount`. So in the running application every quantity written is `quantity - undefined * pax`, which is `NaN`. The client library serialises it with `JSON.stringify`, which sends `NaN` as `null`. What the column then holds (NULL, or an update refused by a NOT NULL constraint and ignored) is not modelled.
- RecipeRoutes.PutIdempotent: the `createdat` and `updatedat` columns, set from the database clock by `NOW()`, are not modelled. A second identical update writes a later `updatedat`, so idempotence holds for the modelled columns only.
- The cook route looks batches up by exact name and overwrites them. It does not consume the oldest batch first, convert units (kg/g, L/mL) or delete emptied batches, and neither does the model.

## Findings

| source | as written | input that shows it | evidently intended | confidence | as-written member | corrected member |
|---|---|---|---|---|---|---|
| server/routes/cookRoutes.js:69 | The waste update targets table `calculation`, but cooking inserts into `calculations` (line 27). | Cook with 200 and id N, then `PUT /waste/N` with `portionwasted: 2`: the cooking event still holds 0. | Update `portionwasted` of the `calculations` row with that id. | not executed | CookRoutes.CookThenLogWaste | CookRoutes.CookThenLogWasteCorrected |
