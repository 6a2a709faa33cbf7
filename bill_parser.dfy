/**
 * The bill reader of server/routes/groceryOCRRoutes.js: the text recognised
 * on a photographed bill is cleaned, cut into lines, the lines are grouped
 * into one chunk per numbered item, and each chunk is cut into space-separated
 * tokens from which a name, a quantity and a price are taken by position. The
 * upload route then checks every item and inserts them all. The recognised
 * text, the check and today's date are parameters.
 */
module GroceryOcrRoutes {
  import opened Wrappers
  import opened Tables
  import opened Js

  // ---------------------------------------------------------------------------
  // Preprocessing

  /** The characters `/[|’I]/g` deletes. */
  predicate Dropped(c: char) {
    c == '|' || c == '\U{2019}' || c == 'I'
  }

  predicate Kept(c: char) {
    !Dropped(c)
  }

  /** `text.replace(/[|’I]/g, "")` */
  function StripSymbols(text: string): string {
    Filter(text, Kept)
  }

  /** Position `i` holds a comma followed by three digits. */
  predicate ThousandsComma(s: string, i: int) {
    0 <= i && i + 3 < |s| && s[i] == ',' && IsDigit(s[i + 1]) && IsDigit(s[i + 2]) && IsDigit(s[i + 3])
  }

  /** `s.replace(/,(\d{3})/g, ".$1")`, scanning left to right and resuming
      after each match. */
  function FixThousands(s: string): string
    decreases |s|
  {
    if ThousandsComma(s, 0) then ['.'] + s[1..4] + FixThousands(s[4..])
    else if s == [] then []
    else [s[0]] + FixThousands(s[1..])
  }

  /** The whole preprocessing chain. */
  function Preprocess(text: string): string {
    FixThousands(StripSymbols(text))
  }

  /** Resuming after a match skips nothing: the rewrite changes exactly the
      commas that are followed by three digits, into dots, and keeps every
      other character in place. */
  lemma {:induction false} FixThousandsPointwise(s: string)
    ensures |FixThousands(s)| == |s|
    ensures forall i :: 0 <= i < |s| ==>
      FixThousands(s)[i] == if ThousandsComma(s, i) then '.' else s[i]
    decreases |s|
  {
    if ThousandsComma(s, 0) {
      var rest := s[4..];
      FixThousandsPointwise(rest);
      var r := FixThousands(s);
      assert r == ['.'] + s[1..4] + FixThousands(rest);
      forall i | 0 <= i < |s| ensures r[i] == if ThousandsComma(s, i) then '.' else s[i] {
        if 1 <= i < 4 {
          assert s[i] != ',';
        } else if i >= 4 {
          assert ThousandsComma(s, i) == ThousandsComma(rest, i - 4);
        }
      }
    } else if s != [] {
      var rest := s[1..];
      FixThousandsPointwise(rest);
      var r := FixThousands(s);
      forall i | 1 <= i < |s| ensures r[i] == if ThousandsComma(s, i) then '.' else s[i] {
        assert ThousandsComma(s, i) == ThousandsComma(rest, i - 1);
      }
    }
  }

  /** After preprocessing no `|`, `’` or capital `I` is left, and every
      character is a dot that replaced a comma or the character the deletion
      left in that place. */
  lemma PreprocessSpec(text: string)
    ensures |Preprocess(text)| == |StripSymbols(text)|
    ensures forall i :: 0 <= i < |Preprocess(text)| ==> !Dropped(Preprocess(text)[i])
    ensures forall i :: 0 <= i < |Preprocess(text)| ==>
      Preprocess(text)[i] == if ThousandsComma(StripSymbols(text), i) then '.' else StripSymbols(text)[i]
  {
    FixThousandsPointwise(StripSymbols(text));
    FilterSpec(text, Kept);
  }

  // ---------------------------------------------------------------------------
  // Grouping lines into chunks

  /** The number of leading ASCII digits. */
  function DigitRun(s: string): (k: nat)
    ensures k <= |s|
    ensures forall j :: 0 <= j < k ==> IsDigit(s[j])
    ensures k == |s| || !IsDigit(s[k])
  {
    if s != [] && IsDigit(s[0]) then 1 + DigitRun(s[1..]) else 0
  }

  /** `/^\d+\./`: digits, then a dot. A shorter run of digits cannot be
      followed by the dot, so only the longest run needs trying. */
  predicate LeadsWithIndex(s: string) {
    var k := DigitRun(s);
    1 <= k < |s| && s[k] == '.'
  }

  /** `/^\d+\.\s+/`: digits, a dot and white space. */
  predicate StartsItem(line: string) {
    var k := DigitRun(line);
    1 <= k && k + 1 < |line| && line[k] == '.' && IsSpace(line[k + 1])
  }

  /** The state of the `forEach` over the lines: the chunks already handed to
      `processItem` and `currentItem`. */
  datatype Scan = Scan(done: seq<string>, current: string)

  /** Every line with `line.trim()` applied. */
  function TrimAll(lines: seq<string>): (r: seq<string>)
    ensures |r| == |lines|
    ensures forall i :: 0 <= i < |lines| ==> r[i] == Trim(lines[i])
  {
    if lines == [] then [] else [Trim(lines[0])] + TrimAll(lines[1..])
  }

  /** The scan after the given trimmed lines: a line that opens an item hands
      a non-empty `currentItem` over and starts a new one; any other line is
      appended after one space. */
  function Fold(trimmed: seq<string>): Scan
    decreases |trimmed|
  {
    if trimmed == [] then Scan([], "")
    else
      var s := Fold(trimmed[..|trimmed| - 1]);
      var line := trimmed[|trimmed| - 1];
      if StartsItem(line) then Scan(if s.current != "" then s.done + [s.current] else s.done, line)
      else Scan(s.done, s.current + " " + line)
  }

  /** Every chunk handed to `processItem`, the last one included, in text order. */
  function Chunks(trimmed: seq<string>): seq<string> {
    var s := Fold(trimmed);
    if s.current != "" then s.done + [s.current] else s.done
  }

  /** The number of lines after the first that open an item. */
  function LaterStarts(trimmed: seq<string>): nat
    decreases |trimmed|
  {
    if |trimmed| <= 1 then 0
    else LaterStarts(trimmed[..|trimmed| - 1]) + (if StartsItem(trimmed[|trimmed| - 1]) then 1 else 0)
  }

  lemma {:induction false} DigitRunAppend(a: string, b: string)
    requires DigitRun(a) < |a|
    ensures DigitRun(a + b) == DigitRun(a)
    decreases |a|
  {
    if IsDigit(a[0]) {
      assert (a + b)[1..] == a[1..] + b;
      DigitRunAppend(a[1..], b);
    }
  }

  /** Text appended to a line that opens an item still opens one. */
  lemma StartsItemAppend(a: string, b: string)
    requires StartsItem(a)
    ensures StartsItem(a + b)
  {
    DigitRunAppend(a, b);
  }

  /** How many chunks the scan has closed: once a line is read,
      `currentItem` is non-empty, a chunk is closed for every later line that
      opens an item, and no closed chunk is empty. */
  lemma {:induction false} FoldSizes(lines: seq<string>)
    requires lines != []
    ensures Fold(lines).current != ""
    ensures |Fold(lines).done| == LaterStarts(lines)
    ensures forall k :: 0 <= k < |Fold(lines).done| ==> Fold(lines).done[k] != ""
    decreases |lines|
  {
    var front := lines[..|lines| - 1];
    if front != [] {
      FoldSizes(front);
    }
  }

  /** Appending a line after a space keeps a chunk that opens an item open. */
  lemma AppendKeepsStart(current: string, line: string)
    requires StartsItem(current)
    ensures StartsItem(current + " " + line)
  {
    StartsItemAppend(current, " " + line);
    assert current + " " + line == current + (" " + line);
  }

  /** Every chunk but the first begins with a line that opens an item. */
  lemma {:induction false} FoldLater(lines: seq<string>)
    requires lines != []
    ensures forall k :: 1 <= k < |Fold(lines).done| ==> StartsItem(Fold(lines).done[k])
    ensures Fold(lines).done != [] ==> StartsItem(Fold(lines).current)
    decreases |lines|
  {
    var front := lines[..|lines| - 1];
    var line := lines[|lines| - 1];
    if front != [] {
      FoldLater(front);
      var s := Fold(front);
      if !StartsItem(line) && s.done != [] {
        AppendKeepsStart(s.current, line);
      }
    }
  }

  /** The first chunk begins with the first line when that line opens an
      item, and otherwise with the space the first `+=` put in front of it. */
  lemma {:induction false} FoldFirst(lines: seq<string>)
    requires lines != []
    ensures var first := if Fold(lines).done == [] then Fold(lines).current else Fold(lines).done[0];
      first != "" && (StartsItem(lines[0]) ==> StartsItem(first)) && (!StartsItem(lines[0]) ==> first[0] == ' ')
    decreases |lines|
  {
    var front := lines[..|lines| - 1];
    var line := lines[|lines| - 1];
    if front != [] {
      FoldFirst(front);
      assert front[0] == lines[0];
      var s := Fold(front);
      if !StartsItem(line) && s.done == [] && StartsItem(lines[0]) {
        AppendKeepsStart(s.current, line);
      }
    }
  }

  /** One chunk per item opened after the first line, plus the first chunk,
      whether or not the first line opens an item. */
  lemma ChunkCount(lines: seq<string>)
    requires lines != []
    ensures |Chunks(lines)| == LaterStarts(lines) + 1
    ensures forall k :: 0 <= k < |Chunks(lines)| ==> Chunks(lines)[k] != ""
    ensures forall k :: 1 <= k < |Chunks(lines)| ==> StartsItem(Chunks(lines)[k])
    ensures StartsItem(Chunks(lines)[0]) <==> StartsItem(lines[0])
  {
    FoldSizes(lines);
    FoldLater(lines);
    FoldFirst(lines);
  }

  // ---------------------------------------------------------------------------
  // One chunk

  /** What `processItem` pushes. Quantity and price stay the tokens `parseFloat` reads. */
  datatype Item = Item(name: string, quantity: string, price: string)

  /** What one call of `processItem` does: throw, log "No match", or push an item. */
  datatype Step = Crash | NoMatch | Found(item: Item)

  /** `itemText.trim().split(" ")` */
  function Tokens(chunk: string): seq<string> {
    Split(Trim(chunk), ' ')
  }

  predicate EndsWithPercent(t: string) {
    |t| > 0 && t[|t| - 1] == '%'
  }

  /** Each token followed by one space, as the counting loop appends them. */
  function ConcatSpaced(ts: seq<string>): string {
    if ts == [] then [] else ts[0] + " " + ConcatSpaced(ts[1..])
  }

  /** `totalL`: 5 tokens are kept off the name when token n-4 ends with `%`, 4 otherwise. */
  function KeptOff(ts: seq<string>): int
    requires |ts| >= 4
  {
    if EndsWithPercent(ts[|ts| - 4]) then 5 else 4
  }

  /** `temp`: token n-4 itself when it ends with `%` (the `concat` result is
      discarded), token n-3 otherwise. */
  function Temp(ts: seq<string>): string
    requires |ts| >= 4
  {
    if EndsWithPercent(ts[|ts| - 4]) then ts[|ts| - 4] else ts[|ts| - 3]
  }

  /** The tokens the counting loop appends: from index 2 up to, not including, n - totalL. */
  function Middle(ts: seq<string>): seq<string>
    requires |ts| >= 4
  {
    if |ts| - KeptOff(ts) > 2 then ts[2..|ts| - KeptOff(ts)] else []
  }

  /** `processItem` on the tokens of a chunk. With fewer than 4 tokens,
      `matchSplit[1]` or `matchSplit[matchLength - 4]` is `undefined` and the
      method call on it throws. */
  function ItemFromTokens(ts: seq<string>): Step
    requires |ts| >= 1
  {
    if !LeadsWithIndex(ts[0]) then NoMatch
    else if |ts| < 4 then Crash
    else
      var n := |ts|;
      Found(Item(Trim(ts[1]) + ConcatSpaced(Middle(ts)) + Temp(ts), ts[n - 2], ts[n - 1]))
  }

  function ItemOf(chunk: string): Step {
    ItemFromTokens(Tokens(chunk))
  }

  lemma {:induction false} ConcatSpacedSnoc(ts: seq<string>, t: string)
    ensures ConcatSpaced(ts + [t]) == ConcatSpaced(ts) + t + " "
  {
    if ts == [] {
      assert [] + [t] == [t];
    } else {
      assert (ts + [t])[1..] == ts[1..] + [t];
      ConcatSpacedSnoc(ts[1..], t);
    }
  }

  /** The loop's output is the tokens joined by single spaces, with one more
      space after the last. */
  lemma {:induction false} ConcatSpacedJoin(ts: seq<string>)
    requires ts != []
    ensures ConcatSpaced(ts) == Join(ts, ' ') + " "
  {
    if |ts| > 1 {
      ConcatSpacedJoin(ts[1..]);
    }
  }

  /** Which chunks give an item and what is in it: no item when the first
      token is not digits and a dot; a throw when it is but there are fewer
      than 4 tokens; otherwise the quantity is token n-2, the price token n-1,
      and the name is token 1 trimmed, then, with no space in between, tokens 2
      up to n - totalL - 1 joined by spaces and followed by one space, then
      `temp`. Token n-5 (with `%`) or n-4 (without) is in none of the fields. */
  lemma ItemFromTokensSpec(ts: seq<string>)
    requires |ts| >= 1
    ensures ItemFromTokens(ts) == NoMatch <==> !LeadsWithIndex(ts[0])
    ensures ItemFromTokens(ts) == Crash <==> LeadsWithIndex(ts[0]) && |ts| < 4
    ensures ItemFromTokens(ts).Found? ==>
      |ts| >= 4
      && ItemFromTokens(ts).item.quantity == ts[|ts| - 2]
      && ItemFromTokens(ts).item.price == ts[|ts| - 1]
      && ItemFromTokens(ts).item.name ==
         Trim(ts[1]) + (if Middle(ts) == [] then "" else Join(Middle(ts), ' ') + " ") + Temp(ts)
  {
    if LeadsWithIndex(ts[0]) && |ts| >= 4 && Middle(ts) != [] {
      ConcatSpacedJoin(Middle(ts));
    }
  }

  /** The discarded `concat`: a discount token such as "5%" ends the name, and
      the token after it is lost. Token 1 and token 2 run together. */
  lemma PercentEndsName()
    ensures ItemFromTokens(["1.", "Tea", "5%", "2", "1", "3"]) == Found(Item("Tea5%", "1", "3"))
  {
    var ts := ["1.", "Tea", "5%", "2", "1", "3"];
    assert DigitRun("1.") == 1;
    assert TrimStart("Tea") == "Tea" && TrimEnd("Tea") == "Tea";
    assert Middle(ts) == [];
  }

  /** `processItem`: the name is built by a counting loop. */
  method ProcessItem(itemText: string) returns (r: Step)
    ensures r == ItemOf(itemText)
  {
    var matchSplit := Tokens(itemText);
    if !LeadsWithIndex(matchSplit[0]) {
      return NoMatch;
    }
    var matchLength := |matchSplit|;
    if matchLength < 4 {
      return Crash;
    }
    var name := Trim(matchSplit[1]);
    var totalL := 4;
    var temp := matchSplit[matchLength - 4];
    if EndsWithPercent(temp) {
      totalL := 5;
    } else {
      temp := matchSplit[matchLength - 3];
    }
    var i := 2;
    while i < matchLength - totalL
      invariant 2 <= i && (i <= matchLength - totalL || i == 2)
      invariant name == Trim(matchSplit[1]) + ConcatSpaced(matchSplit[2..i])
    {
      ConcatSpacedSnoc(matchSplit[2..i], matchSplit[i]);
      assert matchSplit[2..i + 1] == matchSplit[2..i] + [matchSplit[i]];
      name := name + matchSplit[i] + " ";
      i := i + 1;
    }
    assert matchSplit[2..i] == Middle(matchSplit);
    name := name + temp;
    return Found(Item(name, matchSplit[matchLength - 2], matchSplit[matchLength - 1]));
  }

  // ---------------------------------------------------------------------------
  // The whole text

  /** What `parseGroceryText` ends with: it threw, or it returns the items. */
  datatype Parse = Crashed | Items(items: seq<Item>)

  /** `process` (which is `processItem`) applied to the chunks in order,
      pushing into one array; the first throw ends everything. */
  function Collect(chunks: seq<string>, process: string -> Step): Parse
    decreases |chunks|
  {
    if chunks == [] then Items([])
    else Then(Collect(chunks[..|chunks| - 1], process), process(chunks[|chunks| - 1]))
  }

  /** The parse after one more call of `processItem`. */
  function Then(p: Parse, step: Step): Parse {
    match p
    case Crashed => Crashed
    case Items(items) =>
      match step
      case Crash => Crashed
      case NoMatch => Items(items)
      case Found(it) => Items(items + [it])
  }

  function Lines(text: string): seq<string> {
    Split(Preprocess(text), '\n')
  }

  /** `parseGroceryText(text)` */
  function ParsedItems(text: string): Parse {
    Collect(Chunks(TrimAll(Lines(text))), ItemOf)
  }

  /** The parse fails exactly when one chunk makes `processItem` throw. */
  lemma {:induction false} CollectCrash(chunks: seq<string>, process: string -> Step)
    ensures Collect(chunks, process) == Crashed <==> exists k :: 0 <= k < |chunks| && process(chunks[k]).Crash?
    decreases |chunks|
  {
    if chunks != [] {
      var front := chunks[..|chunks| - 1];
      CollectCrash(front, process);
      if exists k :: 0 <= k < |front| && process(front[k]).Crash? {
        var k :| 0 <= k < |front| && process(front[k]).Crash?;
        assert chunks[k] == front[k];
      }
      if exists k :: 0 <= k < |chunks| && process(chunks[k]).Crash? {
        var k :| 0 <= k < |chunks| && process(chunks[k]).Crash?;
        if k < |front| {
          assert front[k] == chunks[k];
        }
      }
    }
  }

  /** Items come out in text order: parsing two runs of chunks one after the
      other gives the items of the first run, then those of the second. */
  lemma {:induction false} CollectAppend(a: seq<string>, b: seq<string>, process: string -> Step)
    requires Collect(a, process).Items? && Collect(b, process).Items?
    ensures Collect(a + b, process) == Items(Collect(a, process).items + Collect(b, process).items)
    decreases |b|
  {
    if b == [] {
      assert a + b == a;
    } else {
      var front := b[..|b| - 1];
      assert (a + b)[..|a + b| - 1] == a + front;
      assert (a + b)[|a + b| - 1] == b[|b| - 1];
      CollectAppend(a, front, process);
    }
  }

  /** Each chunk that yields an item contributes exactly that item. */
  lemma CollectOne(chunk: string, process: string -> Step)
    ensures Collect([chunk], process) == match process(chunk)
      case Crash => Crashed
      case NoMatch => Items([])
      case Found(it) => Items([it])
  {
    assert [chunk][..0] == [];
  }

  /** `parseGroceryText`: a `forEach` that trims each line, keeps
      `currentItem` and hands each finished chunk to `processItem`, then the
      last one. A throw from `processItem` ends the call. */
  method ParseGroceryText(text: string) returns (r: Parse)
    ensures r == ParsedItems(text)
  {
    var lines := Lines(text);
    ghost var trimmed := TrimAll(lines);
    var groceries: seq<Item> := [];
    var currentItem := "";
    var i := 0;
    while i < |lines|
      invariant 0 <= i <= |lines|
      invariant Fold(trimmed[..i]).current == currentItem
      invariant Collect(Fold(trimmed[..i]).done, ItemOf) == Items(groceries)
    {
      var line := Trim(lines[i]);
      assert line == trimmed[i];
      ParseStep(trimmed, i, groceries);
      if StartsItem(line) {
        if currentItem != "" {
          var step := ProcessItem(currentItem);
          if step.Crash? {
            CrashStays(trimmed, i + 1, ItemOf);
            return Crashed;
          }
          if step.Found? {
            groceries := groceries + [step.item];
          }
        }
        currentItem := line;
      } else {
        currentItem := currentItem + " " + line;
      }
      i := i + 1;
    }
    assert trimmed[..i] == trimmed;
    LastChunk(trimmed, groceries);
    if currentItem != "" {
      var step := ProcessItem(currentItem);
      if step.Crash? {
        return Crashed;
      }
      if step.Found? {
        groceries := groceries + [step.item];
      }
    }
    return Items(groceries);
  }

  /** What one more chunk does to the parse. */
  lemma CollectSnoc(chunks: seq<string>, chunk: string, process: string -> Step)
    ensures Collect(chunks + [chunk], process) == Then(Collect(chunks, process), process(chunk))
  {
    assert (chunks + [chunk])[..|chunks|] == chunks;
  }

  /** One line of the loop: a line that opens an item hands a non-empty
      `currentItem` to `processItem` and starts over; any other line is appended. */
  lemma ParseStep(trimmed: seq<string>, i: int, groceries: seq<Item>)
    requires 0 <= i < |trimmed|
    requires Collect(Fold(trimmed[..i]).done, ItemOf) == Items(groceries)
    ensures var s := Fold(trimmed[..i]);
      var next := Collect(Fold(trimmed[..i + 1]).done, ItemOf);
      && (StartsItem(trimmed[i]) ==> Fold(trimmed[..i + 1]).current == trimmed[i])
      && (StartsItem(trimmed[i]) && s.current != "" ==> next == Then(Items(groceries), ItemOf(s.current)))
      && (StartsItem(trimmed[i]) && s.current == "" ==> next == Items(groceries))
      && (!StartsItem(trimmed[i]) ==> Fold(trimmed[..i + 1]).current == s.current + " " + trimmed[i])
      && (!StartsItem(trimmed[i]) ==> next == Items(groceries))
  {
    FoldStep(trimmed, i);
    var s := Fold(trimmed[..i]);
    CollectSnoc(s.done, s.current, ItemOf);
  }

  /** After the loop, the last chunk is handed over if it is not empty. */
  lemma LastChunk(trimmed: seq<string>, groceries: seq<Item>)
    requires Collect(Fold(trimmed).done, ItemOf) == Items(groceries)
    ensures Fold(trimmed).current == "" ==> Collect(Chunks(trimmed), ItemOf) == Items(groceries)
    ensures Fold(trimmed).current != "" ==> Collect(Chunks(trimmed), ItemOf) == Then(Items(groceries), ItemOf(Fold(trimmed).current))
  {
    CollectSnoc(Fold(trimmed).done, Fold(trimmed).current, ItemOf);
  }

  /** One more line read by the scan. */
  lemma FoldStep(trimmed: seq<string>, i: int)
    requires 0 <= i < |trimmed|
    ensures var s := Fold(trimmed[..i]);
      Fold(trimmed[..i + 1]) ==
        if StartsItem(trimmed[i]) then Scan(if s.current != "" then s.done + [s.current] else s.done, trimmed[i])
        else Scan(s.done, s.current + " " + trimmed[i])
  {
    assert trimmed[..i + 1][..i] == trimmed[..i];
  }

  /** The chunks closed after some lines are a prefix of all the chunks. */
  lemma {:induction false} FoldPrefix(trimmed: seq<string>, j: int)
    requires 0 <= j <= |trimmed|
    ensures Fold(trimmed[..j]).done <= Chunks(trimmed)
    decreases |trimmed| - j
  {
    if j == |trimmed| {
      assert trimmed[..j] == trimmed;
    } else {
      FoldPrefix(trimmed, j + 1);
      assert trimmed[..j + 1][..j] == trimmed[..j];
    }
  }

  /** A throw in a chunk closed after `j` lines is a throw of the whole parse. */
  lemma CrashStays(trimmed: seq<string>, j: int, process: string -> Step)
    requires 0 <= j <= |trimmed|
    requires Collect(Fold(trimmed[..j]).done, process) == Crashed
    ensures Collect(Chunks(trimmed), process) == Crashed
  {
    var pre := Fold(trimmed[..j]).done;
    FoldPrefix(trimmed, j);
    CollectCrash(pre, process);
    CollectCrash(Chunks(trimmed), process);
    var k :| 0 <= k < |pre| && process(pre[k]).Crash?;
    assert Chunks(trimmed)[k] == pre[k];
  }

  // ---------------------------------------------------------------------------
  // The upload route

  /** The object `grocerySchema.validate` checks for one item. */
  datatype Candidate = Candidate(name: string, quantity: string, unit: string, price: string, date_of_purchase: string)

  /** `unit: item.unit || "pcs"`: `processItem` never sets `unit`, so every
      item is checked, and stored, with "pcs". */
  function CandidateOf(item: Item, today: string): Candidate {
    Candidate(item.name, item.quantity, "pcs", item.price, today)
  }

  /** An item the check accepted, with the numbers it holds. */
  datatype Checked = Checked(name: string, quantity: real, unit: string, price: real, date_of_purchase: string)

  /** The `value` the check gives back for an accepted candidate: the same
      strings, and the quantity and price it read as numbers. */
  function CheckedOf(c: Candidate, numbers: (real, real)): Checked {
    Checked(c.name, numbers.0, c.unit, numbers.1, c.date_of_purchase)
  }

  /** The rows one `insert` call adds for the checked items, under fresh serial ids. */
  function Inserted(checked: seq<Checked>, userId: int, firstId: int): (rows: seq<Grocery>)
    ensures |rows| == |checked|
    ensures forall k :: 0 <= k < |checked| ==>
      rows[k] == Grocery(firstId + k, userId, checked[k].name, checked[k].quantity, checked[k].unit,
                         checked[k].price, Some(checked[k].date_of_purchase))
  {
    seq(|checked|, k requires 0 <= k < |checked| =>
      Grocery(firstId + k, userId, checked[k].name, checked[k].quantity, checked[k].unit,
              checked[k].price, Some(checked[k].date_of_purchase)))
  }

  /** The `for ... of` loop over the parsed items: the first item the check
      refuses ends it (the route answers 400); otherwise every item is checked,
      in order. `validate` stands for the Joi schema: `None` when it reports an
      error, otherwise the quantity and price it read as numbers. */
  method ValidateItems(items: seq<Item>, today: string, validate: Candidate -> Option<(real, real)>)
    returns (r: Option<seq<Checked>>)
    ensures r.None? <==> exists i :: 0 <= i < |items| && validate(CandidateOf(items[i], today)).None?
    ensures r.Some? ==> |r.value| == |items|
    ensures r.Some? ==> forall i :: 0 <= i < |items| ==>
      validate(CandidateOf(items[i], today)).Some?
      && r.value[i] == CheckedOf(CandidateOf(items[i], today), validate(CandidateOf(items[i], today)).value)
  {
    var validatedItems: seq<Checked> := [];
    for i := 0 to |items|
      invariant |validatedItems| == i
      invariant forall j :: 0 <= j < i ==>
        validate(CandidateOf(items[j], today)).Some?
        && validatedItems[j] == CheckedOf(CandidateOf(items[j], today), validate(CandidateOf(items[j], today)).value)
    {
      var candidate := CandidateOf(items[i], today);
      var result := validate(candidate);
      if result.None? {
        return None;
      }
      validatedItems := validatedItems + [CheckedOf(candidate, result.value)];
    }
    return Some(validatedItems);
  }

  /** Every row the route inserts belongs to the user in the path, holds the
      unit "pcs" and today's date, and carries the name of the item in the same
      place, under an id above every id handed out before. */
  lemma InsertedRows(items: seq<Item>, today: string, validate: Candidate -> Option<(real, real)>,
                     checked: seq<Checked>, userId: int, firstId: int)
    requires |checked| == |items|
    requires forall i :: 0 <= i < |items| ==>
      validate(CandidateOf(items[i], today)).Some?
      && checked[i] == CheckedOf(CandidateOf(items[i], today), validate(CandidateOf(items[i], today)).value)
    ensures forall k :: 0 <= k < |items| ==>
      var row := Inserted(checked, userId, firstId)[k];
      row.userid == userId && row.unit == "pcs" && row.date_of_purchase == Some(today)
      && row.name == items[k].name && row.groceryid >= firstId
  {
  }

  /** The serial ids the insert hands out are fresh: each differs from every
      id already in the table and from every other new id, and the table
      with the new rows still has every id below the next one. */
  lemma InsertedFresh(table: seq<Grocery>, checked: seq<Checked>, userId: int, firstId: int)
    requires forall i :: 0 <= i < |table| ==> table[i].groceryid < firstId
    ensures forall k, i :: 0 <= k < |checked| && 0 <= i < |table| ==>
      Inserted(checked, userId, firstId)[k].groceryid != table[i].groceryid
    ensures forall j, k :: 0 <= j < k < |checked| ==>
      Inserted(checked, userId, firstId)[j].groceryid != Inserted(checked, userId, firstId)[k].groceryid
    ensures forall i :: 0 <= i < |table + Inserted(checked, userId, firstId)| ==>
      (table + Inserted(checked, userId, firstId))[i].groceryid < firstId + |checked|
  {
    var rows := Inserted(checked, userId, firstId);
    forall i | 0 <= i < |table + rows| ensures (table + rows)[i].groceryid < firstId + |checked| {
      if i >= |table| {
        assert (table + rows)[i] == rows[i - |table|];
      }
    }
  }

  /** POST `/:userId`. `hasFile` says whether an image came with the request;
      `recognised` is the text OCR read from it, `None` when OCR failed;
      `today` is the current date; `insertFails` stands for an error from the
      insert. Answers 400 without a file, 500 when OCR fails or parsing
      throws, 400 when no item was found or an item is refused, 500 when the
      insert fails, and otherwise 200 with the parsed items, after inserting
      all of them in one call. */
  method UploadBill(db: Database, userId: int, hasFile: bool, recognised: Option<string>, today: string,
                    validate: Candidate -> Option<(real, real)>, insertFails: bool)
    returns (status: int, items: seq<Item>)
    requires db.Valid()
    modifies db
    ensures db.Valid()
    ensures db.calculations == old(db.calculations) && db.calculation == old(db.calculation)
    ensures db.nextCalculationId == old(db.nextCalculationId)
    ensures status != Ok ==> unchanged(db)
    ensures !hasFile ==> status == BadRequest
    ensures hasFile && recognised.None? ==> status == ServerError
    ensures hasFile && recognised.Some? && ParsedItems(recognised.value).Crashed? ==> status == ServerError
    ensures hasFile && recognised.Some? && ParsedItems(recognised.value) == Items([]) ==> status == BadRequest
    ensures hasFile && recognised.Some? && ParsedItems(recognised.value).Items? ==>
      var parsed := ParsedItems(recognised.value).items;
      (parsed != [] && (exists i :: 0 <= i < |parsed| && validate(CandidateOf(parsed[i], today)).None?) ==> status == BadRequest)
      && (parsed != [] && (forall i :: 0 <= i < |parsed| ==> validate(CandidateOf(parsed[i], today)).Some?) ==>
            if insertFails then status == ServerError
            else status == Ok && items == parsed
                 && exists checked: seq<Checked> ::
                      |checked| == |parsed|
                      && (forall i :: 0 <= i < |parsed| ==>
                            checked[i] == CheckedOf(CandidateOf(parsed[i], today), validate(CandidateOf(parsed[i], today)).value))
                      && db.groceries == old(db.groceries) + Inserted(checked, userId, old(db.nextGroceryId)))
  {
    if !hasFile {
      return BadRequest, [];
    }
    if recognised.None? {
      return ServerError, [];
    }
    var parsed := ParseGroceryText(recognised.value);
    if parsed.Crashed? {
      return ServerError, [];
    }
    var groceryItems := parsed.items;
    if |groceryItems| == 0 {
      return BadRequest, [];
    }
    var validatedItems := ValidateItems(groceryItems, today, validate);
    if validatedItems.None? {
      return BadRequest, [];
    }
    if insertFails {
      return ServerError, [];
    }
    var rows := Inserted(validatedItems.value, userId, db.nextGroceryId);
    db.groceries := db.groceries + rows;
    db.nextGroceryId := db.nextGroceryId + |rows|;
    return Ok, groceryItems;
  }
}
