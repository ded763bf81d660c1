# CSV field sheet to JSON schema: the row processor

This project models the part of the converter that turns a field
specification sheet into two JSON-schema objects. The sheet is already parsed
into rows of cells. The converter builds one schema for the request (INPUTS)
and one for the response (OUTPUTS). It covers four pieces:

- **`InputOutputProcessor`** (module `Processor`, with `Rows`, `Schema` and
  `JsText`). This is a class that makes one pass over the rows:
  - The INPUTS and OUTPUTS marker rows switch it to their phase.
  - A header or blank row switches it to HEADER. Rows read in HEADER are
    counted but not processed until the next marker, so a blank row inside
    INPUTS ends the input section.
  - It skips rows without a field name, and the first counted row after a
    marker.
  - It hands every other row to `processRow`. That call writes one field
    descriptor into the root `properties` of the current phase's spec. For a
    non-array row whose mandatory cell is `Y`, it also adds the row's name to
    that phase's mandatory list; an array row is never added.
  - At the end, each mandatory list becomes its spec's `required`.
  - The class's state is kept as fields that its methods reassign.
    `ProcessFile` is proved against `Run`, a fold over the rows. Lemmas split
    `Run` into a row classifier (`Classify`) and one descriptor fold per phase
    (`Fill`).
- **`Stack<T>`** (module `Stacks`). A class over a sequence field with the
  source's seven operations.
- **The cursor reposition rules** (module `Cursor`). These are the rules the
  repository's test suite fixes for `shouldRepositionCursorPointerStack` and
  `repositionCursorPointerStack`, written as methods over a `Stack<Frame>`.
- **The older `index.js` script** (module `Legacy`). It is one loop over local
  variables with these differences from the class:
  - It starts processing at INPUTS and stops at OUTPUTS.
  - It has no header/blank rule. A row whose first cell is a newline, or whose
    data type is empty, is still processed, and so are the rows after it.
  - It counts only rows after INPUTS; the class also counts rows read in
    HEADER.
  - It skips the first two counted rows.
  - Every title gets the `BUSINESS_INPUTS.` prefix.
  - Each example cell is kept whole.

  `ProcessFileLegacy` is proved equal to `LegacyResult`, which is the same
  classifier-and-fold specification.

`JsText` models the JavaScript string operations the code relies on:
`includes`, `split`, `trim`, `toLowerCase` and `parseInt`. `Schema` models a
`properties` object as an ordered key/value list. `Put` (JavaScript property
assignment) replaces the value of a key that is already there, in place, and
appends a new key at the end.

Facts about the code that the model keeps:
- A data type outside the known ones is kept verbatim, lower-cased, and is
  not dropped.
- A `number` is never reclassified as `integer`.
- Date and date-time types get no `format`.
- A string size without digits is not reported as an error. Its `maxLength`
  is `NaN`, because `parseInt` does not throw.
- An array type with no `[` makes `processRow` throw, from the
  `split('[')[1].split` call. The model returns the failing row's index from
  `ProcessFile` and `None` from `ProcessFileLegacy`. It does not require such
  rows to be absent.

## Model

| member | source | states |
|---|---|---|
| Processor.InputOutputProcessor.constructor | src/InputOutputProcessor/InputOutputProcessor.ts:15-28 | a new processor is in HEADER with counter 0, both specs are the default object with no properties and no `required`, and both mandatory lists are empty |
| Processor.InputOutputProcessor.GetInputSpec | src/InputOutputProcessor/InputOutputProcessor.ts:30-32 | returns the input spec as it currently is |
| Processor.InputOutputProcessor.GetOutputSpec | src/InputOutputProcessor/InputOutputProcessor.ts:34-36 | returns the output spec as it currently is |
| Processor.InputOutputProcessor.ProcessFile | src/InputOutputProcessor/InputOutputProcessor.ts:38-74 | on success, the new state is the row-by-row fold `Run` from the old state, and each `required` is the old mandatory list followed by the names of that phase's processed mandatory rows. On a throw, it returns the index of the first failing row: every earlier row has been folded in, that row fails, only its counter and phase change is kept, and no `required` is attached. The keys stay distinct either way |
| Processor.InputOutputProcessor.ProcessRow | src/InputOutputProcessor/InputOutputProcessor.ts:76-134 | writes the row's descriptor into the given phase's spec and mandatory list exactly as `Apply` does. The other phase, the phase and the counter are untouched; a throwing row changes nothing |
| Processor.InputOutputProcessor.Record | src/InputOutputProcessor/InputOutputProcessor.ts:83-105 | storing a described field assigns its key in the chosen phase's `properties` and pushes the key onto that phase's mandatory list only when it is mandatory; the other phase, the state, the counter and both `required` lists stay as they were, and both specs stay well keyed (distinct keys, every mandatory name a key) |
| Processor.MarkerRows | src/InputOutputProcessor/InputOutputProcessor.ts:40-54 | an INPUTS or OUTPUTS row switches to that phase and resets the counter to 0. A row whose first cell is a newline, or whose data type is empty, switches to HEADER and keeps the counter. None of these rows changes a spec |
| Processor.CounterRules | src/InputOutputProcessor/InputOutputProcessor.ts:55-61 | a row with no field name changes nothing. Any other data row adds one to the counter, and it is processed if and only if the counter reaches 2 outside HEADER |
| Processor.StepFrame | src/InputOutputProcessor/InputOutputProcessor.ts:62-69 | a row changes only the spec of the phase it is read in, and a HEADER row changes neither spec |
| Processor.StepWritesOneKey | src/InputOutputProcessor/InputOutputProcessor.ts:62-69 | a processed row is read in INPUT or OUTPUT and throws exactly when it has no descriptor; otherwise it assigns exactly its descriptor's key in that phase's `properties`, and appends its own name to that phase's mandatory list when it is mandatory |
| Processor.PhaseTitles | src/InputOutputProcessor/InputOutputProcessor.ts:86-93 | INPUT titles are `BUSINESS_INPUTS.` followed by the title cell; OUTPUT titles are the bare cell, for arrays and fields alike |
| Processor.StepOnCombine | src/InputOutputProcessor/InputOutputProcessor.ts:40-69 | one iteration: a row that is not processed changes only the control state; a processed row builds the spec of the phase it is read in from that spec alone and leaves the other spec as it was |
| Processor.RunDecomposes | src/InputOutputProcessor/InputOutputProcessor.ts:38-70 | the pass equals the row classifier followed by one descriptor fold per phase. Each spec receives exactly the rows classified for its phase, in order, and the pass throws exactly when one of those folds does |
| Processor.RunMandatory | src/InputOutputProcessor/InputOutputProcessor.ts:103-105 | after a pass, each phase's mandatory list is the old list followed by the field names of that phase's processed non-array rows marked `Y`, in encounter order |
| Processor.NoMarkerNoRows | src/InputOutputProcessor/InputOutputProcessor.ts:39-69 | starting in HEADER, rows before the first phase marker are never handed to either spec, and the phase stays HEADER |
| Rows.DescribeTitle | src/InputOutputProcessor/InputOutputProcessor.ts:83-96 | the title is the style's prefix followed by the title cell, and the description is the description cell verbatim, on array and field descriptors alike |
| Rows.DescribeArray | src/InputOutputProcessor/InputOutputProcessor.ts:80-90 | an array row succeeds if and only if its lower-cased type holds `[`. Its key is the field name cut before the first `[`, its item type is the lower-cased bracketed type, and it is never mandatory |
| Rows.ItemTypeSpan | src/InputOutputProcessor/InputOutputProcessor.ts:82 | the item type is the text right after the first `[`, up to the next `[` or `]` or the end, and holds neither bracket |
| Rows.DescribeScalar | src/InputOutputProcessor/InputOutputProcessor.ts:91-106 | a non-array row always succeeds and is keyed by its field name with its lower-cased type. It is mandatory if and only if the cell is `Y`. Its examples are the split cell, none for an empty cell, and `[true, false]` for a boolean with a size |
| Rows.ExampleListPieces | src/InputOutputProcessor/InputOutputProcessor.ts:98-101 | the examples are the comma-separated pieces, trimmed and in order: the untrimmed pieces join back to the cell and hold no comma. Without splitting, the list is the raw cell |
| Rows.DescribeSize | src/InputOutputProcessor/InputOutputProcessor.ts:108-133 | the size rules. An empty size adds nothing. A string gets `maxLength = parseInt(size)`, which is the decimal value when the size is all digits. A number or integer gets `maximum = maxByDigits(size)` unless the size holds a comma. Other types get neither |
| Rows.NonNumericStringSize | src/InputOutputProcessor/InputOutputProcessor.ts:113-119 | a string size with no digit yields `maxLength` NaN and no error, so the `catch` never fires |
| Rows.ArrayTypeHasNoSizeRule | src/InputOutputProcessor/InputOutputProcessor.ts:112-133 | a type containing `array` matches none of the size cases |
| Rows.FillMandatory | src/InputOutputProcessor/InputOutputProcessor.ts:103-105 | folding rows appends to the mandatory list exactly the names of the non-array rows marked `Y`, in order |
| Rows.ApplyKeepsKeys | src/InputOutputProcessor/InputOutputProcessor.ts:83-105 | one row keeps the keys distinct and every mandatory name a key, and never loses a key |
| Rows.StoreKeepsKeys | src/InputOutputProcessor/InputOutputProcessor.ts:83-105 | storing any field keeps the keys distinct and every mandatory name a key; the old keys stay a prefix of the new ones, in order |
| Rows.FillKeepsKeys | src/InputOutputProcessor/InputOutputProcessor.ts:62-69 | the same holds for any sequence of processed rows |
| Schema.Put | src/InputOutputProcessor/InputOutputProcessor.ts:92-96 | after `properties[k] = v`, `k` maps to `v` and every other key keeps its value. The key order is kept when `k` was present; otherwise `k` is appended. Distinct keys stay distinct |
| JsText.SplitHead | src/InputOutputProcessor/InputOutputProcessor.ts:81 | `split('[')[0]` is the longest prefix without `[`. There is a single piece if and only if the text holds no `[` |
| JsText.JoinSplit | src/InputOutputProcessor/InputOutputProcessor.ts:99 | joining the pieces of `split(sep)` with `sep` gives the text back |
| JsText.SplitPiecesAvoidSep | src/InputOutputProcessor/InputOutputProcessor.ts:99 | no piece of `split(sep)` contains `sep` |
| JsText.Trim | src/InputOutputProcessor/InputOutputProcessor.ts:99 | neither end of what `trim()` returns is whitespace |
| JsText.TrimIsSlice | src/InputOutputProcessor/InputOutputProcessor.ts:99 | `trim()` gives a contiguous slice of its input with only whitespace removed on either side |
| Rows.TrimEach | src/InputOutputProcessor/InputOutputProcessor.ts:99 | trimming the comma-separated pieces keeps one example per piece, in order, each the trimmed piece |
| JsText.LowerIsIdempotent | src/InputOutputProcessor/InputOutputProcessor.ts:77 | lower-casing twice equals lower-casing once, and leaves no upper-case ASCII letter |
| Rows.ItemTypeIsLower | src/InputOutputProcessor/InputOutputProcessor.ts:82-88 | the item type cut from an already lower-cased type is lower case, so lower-casing it again changes nothing |
| JsText.ParseIntOfDigits | src/InputOutputProcessor/InputOutputProcessor.ts:115 | `parseInt` of a non-empty all-digit size is its decimal value |
| JsText.ParseIntWithoutDigits | src/InputOutputProcessor/InputOutputProcessor.ts:115 | `parseInt` of a text with no decimal digit is NaN |
| JsText.ParseIntDecimalRoundTrip | src/InputOutputProcessor/InputOutputProcessor.ts:115 | a fact about the model's `parseInt`: it reads the plain decimal digits of any natural number back as that number (the code itself never writes a number as text) |
| Stacks.Stack.constructor | src/utils/Stack.ts:7-9 | a new stack is empty |
| Stacks.Stack.Clear | src/utils/Stack.ts:11-13 | the stack becomes empty |
| Stacks.Stack.GetStack | src/utils/Stack.ts:15-17 | returns the elements bottom first and changes nothing |
| Stacks.Stack.Push | src/utils/Stack.ts:19-21 | the item is appended on top and nothing else changes |
| Stacks.Stack.Pop | src/utils/Stack.ts:23-25 | removes and returns the top element; on an empty stack it returns `undefined` (None) and the stack stays empty |
| Stacks.Stack.Peek | src/utils/Stack.ts:27-29 | returns the top element without change, and `undefined` if and only if the stack is empty |
| Stacks.Stack.IsEmpty | src/utils/Stack.ts:31-33 | true if and only if there are no elements |
| Stacks.Stack.Size | src/utils/Stack.ts:35-37 | the number of elements |
| Stacks.PushPeekPop | src/utils/Stack.ts:19-29 | last in, first out: after a push, a peek sees the item and the next pop returns it, leaving the elements as they were |
| Cursor.ShouldReposition | src/InputOutputProcessor/InputOutputProcessor.test.ts:31-69 | false on an empty stack, on a one-frame stack and when the top frame is the parent; true otherwise |
| Cursor.PopTo | src/InputOutputProcessor/InputOutputProcessor.test.ts:905-959 | the frames left form a prefix of the stack whose top is the parent, or are empty, and no removed frame is named like the parent |
| Cursor.Reposition | src/InputOutputProcessor/InputOutputProcessor.test.ts:905-959 | pops frames until the top is the parent, leaving exactly `PopTo` of the old frames |
| Cursor.NeedsRepositionIffMoves | src/InputOutputProcessor/InputOutputProcessor.test.ts:31-69 | with more than one frame, a reposition is due if and only if repositioning changes the stack; a stack whose top is the parent is left alone |
| Cursor.PopToIdempotent | src/InputOutputProcessor/InputOutputProcessor.test.ts:939-959 | repositioning twice to the same parent equals repositioning once |
| Legacy.ProcessFileLegacy | index.js:33-127 | the spec the script builds equals `LegacyResult`: the classified rows folded into an empty `properties`, with the mandatory list as `required`. It is None exactly where the script throws |
| Legacy.WriteRow | index.js:66-122 | writing one more row leaves `properties` and `mandatoryField` equal to the fold of every row written so far, and fails exactly where that fold fails |
| Legacy.StoppedStays | index.js:48-51 | after the OUTPUTS marker no further row is looked at |
| Legacy.StopsAtOutputs | index.js:48-51 | the schema it writes depends only on the rows up to the first OUTPUTS marker |
| Legacy.NothingBeforeInputs | index.js:42-59 | rows before the INPUTS marker are never processed |
| Legacy.LegacyCounter | index.js:43-64 | INPUTS starts processing and resets the counter. A row with no field name is skipped without counting. Every other row after INPUTS adds one to the counter and is processed if and only if the counter reaches 3 |
| Legacy.LegacyRequired | index.js:91-93 | the written `required` is the field names of the processed non-array rows marked `Y`, in encounter order |
| Legacy.LegacyTitlesAndExamples | index.js:69-89 | every title carries `BUSINESS_INPUTS.`, and a non-empty example cell becomes a one-element list holding the raw cell, unless a boolean with a size overrides it |

## Left out

- Reading the sheet, the CSV parser, the `Importer`, the `Exporter` and `main.ts` are not part of this model. The rows arrive as a sequence of cell sequences.
- The JSON serialisation and the file writes at the end of `index.js`, with their quote and whitespace rewriting, are not modelled. `ProcessFileLegacy` returns the spec it would write.
- The `console.log` calls are left out, because they only print.
- The tree placement of nested fields is not part of this model. This covers the cursor traversal, the insertion at the cursor and the `cursorPositionStack` field, whose code is not in the modelled class. Only the two reposition rules that the test suite pins down are modelled, as methods over a `Stack<Frame>`.
- Cursor.Reposition: when no frame has the parent's name, the model pops the stack empty; the tests do not cover this case.
- The skipped test for frames with the same name (test file line 961) is not modelled, because it fixes no behaviour.
- Processor.InputOutputProcessor.GetInputSpec: returns the input spec as a value. In the source it returns the live object by reference, so a caller sees later changes and can change the spec through it.
- Processor.InputOutputProcessor.GetOutputSpec: returns the output spec as a value; in the source it is the live object, by reference, as for the input spec.
- Stacks.Stack.GetStack: returns the elements as a value. In the source it returns the underlying array by reference, so a caller can change the stack through it.
- The aliasing created by `{...inputSpecification}` in `index.js` is not modelled. That shallow copy shares its `properties` object with the module constant, and it has no effect within a single call.
- JsText.Lower: lower-cases ASCII letters only. JavaScript's `toLowerCase` applies the full Unicode case mapping.
- JsText.ParseInt: works on exact integers. JavaScript's `parseInt` returns a double, so it rounds values above 2^53 and returns -0 for `"-0"`. The text `Infinity` is NaN in both.
- Schema.Put: keeps plain insertion order. A JavaScript object lists integer-like keys such as `"42"` first, in numeric order, and assigning `__proto__` sets the prototype instead of adding a key.
- The `catch` at InputOutputProcessor.ts:117-119 and index.js:106-108 is never reached, because `parseInt` does not throw. The model therefore has no error for non-numeric sizes (see `Rows.NonNumericStringSize`).
- Rows shorter than the mapping are excluded by a precondition (`Covers`/`AllCover`), every such row, including the ones the source skips without error (rows before a marker, rows read in HEADER, the first counted row of a phase). In the source a processed short row reads `undefined` cells, with effects that depend on the cell and the file. In both files a missing data-type cell throws at `toLowerCase` (`InputOutputProcessor.ts` line 77, `index.js` line 66), and a missing size cell throws at `includes` on a number or integer row (`InputOutputProcessor.ts` line 123, `index.js` line 112). A missing example cell throws at `split` in the class (line 99), while `index.js` stores `[undefined]` as the examples (lines 87-88). A missing title becomes the text `undefined` in the title.
- The row index `i` that `processRow` takes is used only in the unreachable error message, so the model does not take it.
- The `type: 'object'` and `description: ''` members of each root spec never change, so they are not stored.
