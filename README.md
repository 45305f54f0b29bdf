# Demo hash table: a Dafny model

The site's interactive demo keeps a hash table of five slots, `demoTableState`.
Each slot is `null` or holds one string of the form `key→value`. The page has
three buttons:

- insert trims the key and the value, rejects a blank one, and otherwise
  overwrites slot `simpleHash(key) % 5` with `key→value`;
- search trims the key, rejects a blank one, and reports the slot as found
  when it holds a string that starts with the key;
- delete does the same test and empties the slot when it passes.

`simpleHash` folds the key's UTF-16 code units into a 32-bit signed
accumulator, `hash = ((hash << 5) - hash) + char; hash = hash & hash`, and
returns `Math.abs` of the result. Each table cell shows `i: entry`, or `i: -`
when the slot is empty.

The model has five modules, one file each:

- `JsNumber` (`js_number.dfy`): ECMAScript ToInt32 on integral values, and `Math.abs`.
- `JsString` (`js_string.dfy`): strings as sequences of UTF-16 code units,
  `String.prototype.trim` with the ECMAScript white-space and line-terminator
  set, and `startsWith`.
- `StringHash` (`simple_hash.dfy`): `simpleHash` as a method with the source's
  loop. It is proved equal to a recursive accumulator function, and that function
  is proved equal to the unbounded polynomial Σ c[i]·31^(n-1-i) reduced to a
  signed 32-bit value.
- `HashDemo` (`demo_table.dfy`): the table. Its specification is a set of pure
  functions on a sequence of five slots (`Insert`, `Search`, `Delete`, `Render`)
  with lemmas that relate them. The class `DemoTable` keeps the slots in an array
  that `SimulateInsert` and `SimulateDelete` update in place, and each method is
  proved to do exactly what its specification function does.
- `DemoScenarios` (`demo_scenarios.dfy`): concrete runs on literal keys:
  - "apple" goes to slot 0;
  - "a" and "f" collide in slot 2;
  - a search for "a" finds the entry of "ad";
  - the key "H[EZG_" has hash 2^31.

Some notes on how the model reads the code:

- JavaScript truthiness is modelled as written. A slot counts only when it is
  non-null and non-empty, both in the search and delete test
  (`value && value.startsWith(key)`) and in the cell text (`value ? value : '-'`).
  Stored entries always contain `→`, so in practice this is the same as non-null.
- The search and delete test compares a prefix of the whole `key→value` string,
  not the stored key. The model keeps this behaviour (`Matches`, `PrefixKeyFound`,
  `PrefixScenario`).
- The shift in `hash << 5` is modelled as JavaScript evaluates it: ToInt32 of
  ToInt32(hash)·32. The subtraction and addition are exact on Numbers here,
  because every intermediate value stays well below 2^53. `hash & hash` is ToInt32
  of the sum. `StepIsTimes31` proves that the step equals ToInt32(31·hash + char).

## Model

| member | source | states |
|---|---|---|
| `JsNumber.ToInt32` | script.js:8-9 | the int32 conversion applied by `<<` and `&` always gives a signed 32-bit value, and it is the identity on values already in range |
| `JsNumber.Abs` | script.js:11 | `Math.abs` returns the accumulator or its negation, never a negative number |
| `JsString.Trim` | script.js:37-38 | `trim` never lengthens a string and leaves no white space at either end of the result |
| `JsString.TrimStartStripsWhiteSpace` | script.js:37-38 | the leading part of `trim` keeps a suffix of its input and removes only white space |
| `JsString.TrimEndStripsWhiteSpace` | script.js:37-38 | the trailing part of `trim` keeps a prefix of its input and removes only white space |
| `JsString.TrimIsSlice` | script.js:37-38 | what `trim` keeps is one contiguous piece of its input |
| `JsString.TrimEmptyIffBlank` | script.js:40 | a trimmed input is empty (and so rejected by `!key`) exactly when the raw input is white space throughout, the empty string included |
| `JsString.TrimKeeps` | script.js:72 | `trim` returns unchanged a string whose first and last code units are not white space |
| `StringHash.StepIsTimes31` | script.js:8-9 | one loop step, `(hash << 5) - hash + char` followed by `hash & hash`, takes a signed 32-bit accumulator to ToInt32(31·hash + char), again signed 32-bit |
| `StringHash.Accumulator` | script.js:5-10 | the accumulator after any number of steps is a signed 32-bit value |
| `StringHash.AccumulatorPrefix` | script.js:6-10 | consuming one more code unit takes the accumulator h to ToInt32(31·h + c) |
| `StringHash.AccumulatorIsWrappedPolynomial` | script.js:4-10 | the accumulator, wrapped at every step, equals the unbounded polynomial Σ c[i]·31^(n-1-i) wrapped once to int32 |
| `StringHash.Hash` | script.js:11 | the hash is `Math.abs` of the accumulator: between 0 and 2^31, and equal to 2^31 exactly when the accumulator is -2^31 |
| `StringHash.SimpleHash` | script.js:4-12 | the loop returns the hash of its input, which is `Math.abs` of the int32-wrapped polynomial of the code units |
| `HashDemo.EmptyTable` | script.js:15-21 | the table starts as five null slots |
| `HashDemo.SlotIndex` | script.js:47-48 | the slot `simpleHash(key) % 5` of a key is in 0..4 |
| `HashDemo.Entry` | script.js:50 | the stored string starts with the key, holds the arrow right after it, and ends with the value |
| `HashDemo.Insert` | script.js:33-50 | insert fails validation exactly when the trimmed key or value is empty, and then the table is unchanged; otherwise it reports the slot index and the entry, puts `key→value` (trimmed) in that slot whatever it held, and leaves the other four slots as they were |
| `HashDemo.Search` | script.js:69-93 | search fails validation exactly when the trimmed key is empty; otherwise it reports found exactly when the key's slot is non-empty and its string starts with the key, and then it gives that slot's index and its string; otherwise it reports not found for the trimmed key |
| `HashDemo.Delete` | script.js:98-123 | delete fails validation exactly when the trimmed key is empty; it empties the key's slot exactly when the search test passes there, reports the index and the trimmed key, and leaves the other slots untouched; otherwise (a non-blank key that does not match) it reports not found for the trimmed key and leaves the whole table as it was |
| `HashDemo.OperationsPreserveWellFormed` | script.js:15-21 | after any insert or delete the table still has five slots, each null or a string containing the arrow |
| `HashDemo.BlankKeyRejected` | script.js:40-45 | a key that is empty or white space only is rejected by insert, search and delete whatever the table holds, and the table is unchanged |
| `HashDemo.InsertThenSearch` | script.js:85 | right after a valid insert, a search for the same key reports found, at the index and with the entry that the insert reported |
| `HashDemo.InsertThenDelete` | script.js:113-114 | right after a valid insert, deleting the same key reports deleted and leaves the table as before the insert except that the slot is now empty |
| `HashDemo.DeleteThenSearch` | script.js:113-123 | after a successful delete, searching the same key reports not found, and deleting it again reports not found and changes nothing |
| `HashDemo.LaterInsertOverwrites` | script.js:50 | a second insert into the slot of a first one leaves the table as if only the second had happened (same key with a new value, or a colliding key); a rejected second insert leaves the first in place |
| `HashDemo.PrefixKeyFound` | script.js:85 | a search key that is a prefix of an inserted key and lands in the same slot is reported found: the test is a prefix test on the stored string, not key equality |
| `HashDemo.Digit` | script.js:28 | the index is written as its one decimal digit: the code unit is in '0'..'9' and reading it back gives the index |
| `HashDemo.Cell` | script.js:28 | cell i reads `i: ` followed by the slot's string, or by `-` when the slot is null or empty |
| `HashDemo.Render` | script.js:23-30 | the table view has five cells, cell i being the text of slot i |
| `HashDemo.CellDeterminesSlot` | script.js:28 | one cell's text determines its slot, for slots the operations can produce |
| `HashDemo.RenderDeterminesTable` | script.js:23-30 | two reachable tables that render the same five cells are the same table: the view shows the state exactly |
| `HashDemo.DemoTable.constructor` | script.js:15-21 | a new table is an array of five null slots |
| `HashDemo.DemoTable.SimulateInsert` | script.js:33-50 | the in-place insert returns the report and leaves the array holding exactly the table given by `Insert` on the old contents, keeping the well-formedness invariant |
| `HashDemo.DemoTable.SimulateSearch` | script.js:69-93 | the search reads the array and returns what `Search` gives on its contents |
| `HashDemo.DemoTable.SimulateDelete` | script.js:98-123 | the in-place delete returns the report and leaves the array holding exactly the table given by `Delete` on the old contents, keeping the well-formedness invariant |
| `DemoScenarios.AppleHash` | script.js:4-12 | hash("apple") is 93029210, so "apple" goes to slot 0 |
| `DemoScenarios.SmallKeysShareSlot2` | script.js:47-48 | "a", "f" and "ad" all land in slot 2 |
| `DemoScenarios.AppleScenario` | script.js:33-123 | insert("apple", "red") reports slot 0 and fills it with "apple→red"; search then finds it there; delete then gives back the empty table; searching the empty table reports not found |
| `DemoScenarios.CollisionScenario` | script.js:50 | insert("a", "1") followed by insert("f", "2") leaves only "f→2" in slot 2, and "a" is no longer found |
| `DemoScenarios.PrefixScenario` | script.js:85 | after insert("ad", "1"), search("a") reports "ad→1" found in slot 2, and delete("a") removes it |
| `DemoScenarios.HashReachesTwo31` | script.js:11 | the accumulator of "H[EZG_" is -2^31, so its hash is 2^31 (no overflow in `Math.abs`) and it lands in slot 3 |

## Left out

- The DOM: reading the input fields, writing feedback text and classes,
  highlighting the updated cell, and clearing the inputs after an operation. The
  inputs are parameters. The feedback is the `Feedback` datatype, which carries
  the index, entry and key that the messages show. The Spanish wording of the
  messages is not modelled.
- The one-second timer that removes the cell highlight, and everything after
  line 126 of `script.js`: smooth scrolling, intersection observers, parallax,
  navbar shading, keyboard shortcuts, style injection, load animations and console
  output. These are browser event wiring and presentation.
- `updateDemoTable` writes each cell through the DOM. The model gives the text of
  the five cells as a pure function of the table (`Render`).
- JavaScript Numbers are doubles. The model uses unbounded integers, which agree
  here: every intermediate value of the hash is an integer of magnitude below
  2^38, well below 2^53.
- `IsWhiteSpace` lists the Unicode space separators of the current Unicode
  version. A future Unicode release that adds one would need the list extended.
