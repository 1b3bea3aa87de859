# Responsive Bootstrap Toolkit — breakpoint queries in Dafny

The toolkit tells a page which responsive breakpoint (`xs`, `sm`, `md`, …) is active.
It injects one hidden marker element per breakpoint and reads which markers the CSS framework
displays. On top of that it answers three queries:

- `is(name)`: is this breakpoint's marker visible?
- `is(expression)`, with `<name`, `<=name`, `>name` or `>=name`: is any breakpoint in the
  range the comparison names visible?
- `current()`: which breakpoint, in configuration order, is the last visible one?

`use(framework, mapping)` chooses the configuration. That is one of two six-tier presets
(Bootstrap 5, Foundation 5) or a caller-supplied ordered mapping.

This project models that logic with page visibility as an oracle. The oracle is
`Visibility = string -> bool`, from breakpoint name to "its marker is displayed". The ordered
mapping is a `seq<(string, string)>` of (name, marker descriptor) pairs with unique names.

- `Expressions` (pure): recognising an expression and splitting it. `charAt` and `slice` are
  modelled with their out-of-range behaviour, so the split/join round trip holds for every
  string.
- `Breakpoints`: the mapping, `indexOf`, the two presets and ASCII lower-casing.
- `Resolution`: the meaning of queries, as specification functions, plus the `isAnyActive`
  loop (a method with an early return). `MatchSpec` is an expression query, and its result
  `None` stands for JavaScript's `undefined`. `QuerySpec` is any query. `CurrentOf` is what
  `current` reports. Beside them are the lemmas about these functions.
- `Toolkit`: a class with the fields `framework` and `breakpoints`, which `Use` assigns.
  `IsMatchingExpression` updates its locals `pos`, `start` and `end` as the source does.
  `Is` and `Current` are methods proved equal to the specification functions.
- `Scenario`: a worked example with four tiers of which only the third is visible.

Points where the model follows the code rather than a looser reading of it:

- `current()` calls `is(key)` for every key. A configured name that itself begins with `<` or
  `>` is therefore evaluated as an expression. The model keeps this: a name "hits" when its
  query answers `Some(true)`. `HitsPlain` shows that for ordinary names a hit is exactly a
  visible marker. Both presets have ordinary names (`BootstrapWellFormed`,
  `FoundationWellFormed`).
- `splitExpression` tests the character after the comparator for `=`. A breakpoint whose name
  itself starts with `=` therefore cannot be reached with `<` or `>`: `"<" + "=md"` is read as
  `<=md`. `LeadingEqualsIsTakenByComparator` states this for both comparators and every such name. The `<` and `>` lemmas exclude such names. The
  `<=` and `>=` lemmas need no such condition.
- An operator other than `<` or `>` leaves the slice at `[0, 0)`, so the answer is false.
  `is` never reaches that case, because it only evaluates strings that start with a comparator.

## Model

| member | source | states |
|---|---|---|
| `Expressions.CharAt` | src/bootstrap-toolkit.js:73-84 | `charAt(i)` is the one-character string at `i` inside the string and the empty string past its end |
| `Expressions.Suffix` | src/bootstrap-toolkit.js:98 | `slice(i)` is the suffix from `i`, and the empty string when `i` is past the end |
| `Expressions.IsAnExpression` | src/bootstrap-toolkit.js:72-74 | a query is an expression iff it is non-empty and its first character is `<` or `>` |
| `Expressions.Split` | src/bootstrap-toolkit.js:79-105 | operator is the first character (empty for an empty string); `orEqual` iff the second character is `=`; the name is the rest after one or two characters; operator + optional `=` + name rebuilds the input, for every string |
| `Expressions.JoinSplit` | src/bootstrap-toolkit.js:79-105 | joining a one-character comparator, flag and name and splitting again gives the parts back, unless no `=` is written and the name starts with `=` |
| `Expressions.LeadingEqualsIsTakenByComparator` | src/bootstrap-toolkit.js:84-98 | for `c` either comparator and any name `n` starting with `=`, `c + n` splits as `c` with `orEqual` and name `n` minus its `=`, never as `c` with name `n` |
| `Breakpoints.IndexOf` | src/bootstrap-toolkit.js:130-136 | -1 iff the name is absent; otherwise a position inside the list holding the name, with no earlier occurrence |
| `Breakpoints.IndexOfUnique` | src/bootstrap-toolkit.js:130-133 | with unique names, the position found for the name at index `pos` is `pos` |
| `Breakpoints.BootstrapWellFormed` | src/bootstrap-toolkit.js:36-43 | the Bootstrap preset lists `xs, sm, md, lg, xl, xxl` in that order, all distinct and none read as an expression |
| `Breakpoints.FoundationWellFormed` | src/bootstrap-toolkit.js:45-52 | the Foundation preset lists `xsmall … xxlarge` in that order, all distinct and none read as an expression |
| `Breakpoints.Lower` | src/bootstrap-toolkit.js:210 | lower-casing keeps the length, turns each `A`–`Z` into the matching `a`–`z` and keeps every other character |
| `Resolution.SliceBounds` | src/bootstrap-toolkit.js:138-168 | the slice `[start, end)` lies within `[0, len]`, and an index is in it iff the comparison accepts it (`<`: below `pos`, `<=`: up to `pos`, `>`: above `pos`, `>=`: from `pos`) |
| `Resolution.IsAnyActive` | src/bootstrap-toolkit.js:110-120 | returns true iff some breakpoint of the list is visible; false on the empty list |
| `Resolution.SliceVisible` | src/bootstrap-toolkit.js:168-170 | the slice holds a visible breakpoint iff some index the comparison accepts is visible |
| `Resolution.MatchSemantics` | src/bootstrap-toolkit.js:125-173 | an expression has no value iff its name is not configured; otherwise it is true iff some accepted breakpoint is visible |
| `Resolution.ExpressionOf` | src/bootstrap-toolkit.js:125-136 | a comparator plus optional `=` plus a configured name is an expression that splits back into those parts, and its lookup finds that name's index |
| `Resolution.QueryLess` | src/bootstrap-toolkit.js:150-153 | `<name(pos)` is true iff some breakpoint in `[0, pos)` is visible |
| `Resolution.QueryLessOrEqual` | src/bootstrap-toolkit.js:150-153 | `<=name(pos)` is true iff some breakpoint in `[0, pos]` is visible |
| `Resolution.QueryGreater` | src/bootstrap-toolkit.js:163-166 | `>name(pos)` is true iff some breakpoint in `(pos, len)` is visible |
| `Resolution.QueryGreaterOrEqual` | src/bootstrap-toolkit.js:163-166 | `>=name(pos)` is true iff some breakpoint in `[pos, len)` is visible |
| `Resolution.EmptyRangeEdges` | src/bootstrap-toolkit.js:150-170 | `<` the first breakpoint and `>` the last one are always false |
| `Resolution.QueryUnknown` | src/bootstrap-toolkit.js:133-173 | an expression whose name is not configured answers `undefined` (None), whatever is visible |
| `Resolution.QueryDirect` | src/bootstrap-toolkit.js:198-203 | a query that is not an expression answers the visibility of that name's marker |
| `Resolution.HitsPlain` | src/bootstrap-toolkit.js:226-229 | for names that are not expressions, `current` counts a breakpoint iff its marker is visible |
| `Resolution.CurrentNoneVisible` | src/bootstrap-toolkit.js:224-232 | when no breakpoint hits, the result is `unrecognized` |
| `Resolution.CurrentLastWins` | src/bootstrap-toolkit.js:224-232 | when some breakpoint hits, the result is the name of the hit with the greatest index |
| `Resolution.CurrentSingle` | src/bootstrap-toolkit.js:224-232 | when exactly one breakpoint hits, the result is its name |
| `Toolkit.CaseVariantsSelectPresets` | src/bootstrap-toolkit.js:210-213 | `use('Bootstrap')` and `use('FOUNDATION')` select the Bootstrap and Foundation presets, whatever mapping is passed |
| `Toolkit.Toolkit.RangeQueries` | src/bootstrap-toolkit.js:125-201 | on a valid toolkit, for the configured breakpoint at `pos`: `<` is true iff one in `[0, pos)` is visible, `<=` iff one in `[0, pos]`, `>` iff one in `(pos, len)`, `>=` iff one in `[pos, len)` |
| `Toolkit.Toolkit.constructor` | src/bootstrap-toolkit.js:256-258 | a new toolkit is configured as `use('bootstrap')` leaves it: framework `bootstrap`, the Bootstrap preset, names unique |
| `Toolkit.Toolkit.Use` | src/bootstrap-toolkit.js:209-219 | afterwards `framework` is the lower-cased name; `breakpoints` is the matching preset for `bootstrap` or `foundation`, otherwise the caller's mapping; names stay unique; the old state plays no part, so a later call replaces an earlier one |
| `Toolkit.Toolkit.IsMatchingExpression` | src/bootstrap-toolkit.js:125-173 | the answer is the expression's meaning over the configured names; `undefined` (None) iff the name is not configured |
| `Toolkit.Toolkit.Is` | src/bootstrap-toolkit.js:198-204 | the answer is the query's meaning; a direct name answers its marker's visibility |
| `Toolkit.Toolkit.Current` | src/bootstrap-toolkit.js:224-232 | the result is the last name in configuration order whose query answers true, or `unrecognized` |
| `Scenario.FourTierCurrent` | src/bootstrap-toolkit.js:224-232 | with tiers `xs, sm, md, lg` and only `md` visible, `current` reports `md` and `is(md)` is true |
| `Scenario.FourTierExpressions` | src/bootstrap-toolkit.js:150-170 | in the same scenario `<md` and `>md` are false, `<=md` and `>=sm` are true |
| `Scenario.BootstrapTiersFit` | src/bootstrap-toolkit.js:37-40 | the names `xs, sm, md, lg` meet the scenario's conditions |

## Left out

- `DocReady`, `applyDetectionDivs` and the placeholder element (src/bootstrap-toolkit.js:8-16, 58-67, 250-254). They build and insert DOM nodes and contain no query logic.
- `document.querySelector` and `window.getComputedStyle`. They are browser calls, replaced by the visibility oracle. For a name without a marker, a direct query in the source returns `null` (`$ele && …`, src/bootstrap-toolkit.js:202-203), which is falsy. The model answers `Some(false)` through the oracle and does not distinguish `null` from `false`.
- Missing markers inside `isAnyActive`: for a breakpoint without a marker, the source passes `null` to `getComputedStyle` and throws. The oracle is total, so the model does not capture that exception. The same holds for the Foundation preset, whose descriptors are HTML strings rather than class lists, so `.device-<name>` finds no marker. Agreement between names and marker classes depends on the page and is not modelled.
- `changed` (src/bootstrap-toolkit.js:237-245). It is a `setTimeout`/`clearTimeout` debounce about timer scheduling. Its effective delay is `ms` when `ms` is truthy and otherwise the 300 ms default (src/bootstrap-toolkit.js:183).
- `Breakpoints.Lower`: models `toLowerCase` for ASCII letters only. Full Unicode case mapping is not modelled.
- `Expressions.CharAt`, `Expressions.Suffix`, `Expressions.Split`: a Dafny `char` is a Unicode scalar value, while `charAt` and `slice` index UTF-16 code units. On a string whose first character lies outside the Basic Multilingual Plane, such as `"😀=md"`, the model gives `orEqual` true and JavaScript gives false. `is` never splits such a string, because it splits only strings that start with `<` or `>`.
- `Toolkit.Toolkit.Use`: the caller's mapping is a parameter. A call such as `use('other')` without a mapping sets `breakpoints` to undefined, and that case is not modelled. Once the document is loaded, that call throws in `applyDetectionDivs`, since `Object.entries(undefined)` throws (src/bootstrap-toolkit.js:12-13, 60). After it, expression queries and `current` throw too. Direct-name queries do not read the mapping.
- `Toolkit.Toolkit.Use`: the mapping is held by value. The source stores the caller's object (src/bootstrap-toolkit.js:215) or the shared preset object (src/bootstrap-toolkit.js:213) by reference. A change made through `breakpoints` therefore changes the object it came from. When that object is a preset, a later `use('bootstrap')` or `use('foundation')` brings the change back. The model does not capture this aliasing.
- `Toolkit.Toolkit.constructor`: it assigns the state that the module initialiser's `use('bootstrap')` produces, rather than calling `Use`. The initial `null` framework is not modelled.
- JavaScript enumerates integer-like object keys (`"100"`, `"50"`) before all others, in numeric order. The model takes the mapping's order as given.
- The module export lines (src/bootstrap-toolkit.js:264-267) and the demo script (demos/bootstrap/main.js), which is DOM and console wiring.
