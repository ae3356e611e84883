# Roll inspector: verified model of its display logic

The roll inspector is the pf2e system's dialog that shows how a chat-logged roll was
made: its damage dice, its modifiers, its domains and its roll options (the tags that
describe the circumstances of the roll), with a search box over the roll options.
Most of `src/module/chat-message/roll-inspector.ts` is glue to the host framework.
This project models the three pieces of logic inside it and proves what they promise.

- **Roll-option order** (`getData`, line 40, and the same expression at line 95). The
  options are first sorted with JavaScript's default `sort()`, which compares strings
  code unit by code unit. They are then put through remeda's stable `sortBy` with the
  key `o.includes(":")`. The model works on JavaScript strings as sequences of UTF-16
  code units (`JsStrings`). It specifies `sort()` by a reference insertion sort
  (`Sorting.SortStrings`) and `sortBy` by a stable insertion sort on a boolean key
  (`Sorting.SortByKey`). It proves that the result is a permutation of the input with
  un-namespaced options first and each group in ascending order. It also proves that
  these properties determine the result completely.
- **The view model of `getData`** (lines 36-74, module `RollDetails`). This covers the
  critical label, the composed dice value, the domains sort, the contextual-option
  groups and the empty-list defaults for missing flags. The localisation function,
  `signedInteger` and the two damage-dice label helpers are fields of a `Host` value.
  They are function parameters whose results are left unspecified.
- **The search filter** (`_onSearchFilter`, lines 119-126, module `SearchFilter`). The
  rendered list is a class with two arrays: the `<li>` rows, and the direct-child
  `ul.sub-list` elements. Each sub-list names its rows by position in the row array, so
  a row inside a sub-list is the same row that the first loop updates. The method
  `OnSearchFilter` has the source's two loops. Its postcondition gives the new state of
  both arrays as a function of the old state and the query. Lemmas then prove the
  visibility rules, idempotence, and that the result does not depend on the previous
  flags.

The search is case-sensitive: `includes` compares code units exactly
(`SearchFilter.SearchExample`).

## Model

| member | source | states |
|---|---|---|
| `JsStrings.BelowTotal` | src/module/chat-message/roll-inspector.ts:40 | Any two strings are comparable in JavaScript's default sort order (code unit by code unit, a proper prefix first) |
| `JsStrings.BelowAntisymmetric` | src/module/chat-message/roll-inspector.ts:40 | Two strings that are each at most the other are equal, so the default sort has no ties between distinct strings |
| `JsStrings.BelowTransitive` | src/module/chat-message/roll-inspector.ts:40 | The default string order is transitive |
| `JsStrings.Includes` | src/module/chat-message/roll-inspector.ts:120 | `text.includes(query)` needs a query no longer than the text, and the empty query is found in every text |
| `JsStrings.IncludesIffOccurs` | src/module/chat-message/roll-inspector.ts:120 | `text.includes(query)` holds exactly when `query` occurs at some position of `text`, compared code unit by code unit |
| `Sorting.SortStrings` | src/module/chat-message/roll-inspector.ts:40 | `options.sort()` returns the same strings, duplicates included, in ascending order |
| `Sorting.SortStringsUnique` | src/module/chat-message/roll-inspector.ts:65 | Any ascending arrangement of the same strings equals the result of `sort()`, so the sorted domains list does not depend on the engine's sort algorithm |
| `Sorting.SortByKey` | src/module/chat-message/roll-inspector.ts:40 | A stable `sortBy` on a boolean key gives the `false` elements in their input order, followed by the `true` elements in their input order |
| `RollOptions.NamespacedIsIncludesColon` | src/module/chat-message/roll-inspector.ts:40 | The grouping key "holds a colon" is the source's `o.includes(":")` |
| `RollOptions.OrderRollOptions` | src/module/chat-message/roll-inspector.ts:40 | The roll-option order (also used for each modifier's and die's options at line 95) returns the same options, duplicates included, and as many of them |
| `RollOptions.OrderRollOptionsSpec` | src/module/chat-message/roll-inspector.ts:40 | The ordered roll options have the same length and the same multiset as the input, every un-namespaced option comes before every namespaced one, and within each group the options ascend |
| `RollOptions.OrderRollOptionsUnique` | src/module/chat-message/roll-inspector.ts:40 | Any arrangement of the options with the plain group first and both groups ascending is exactly the ordered list |
| `RollOptions.OrderRollOptionsExample` | src/module/chat-message/roll-inspector.ts:40 | `["flat-footed", "trait:fire", "all"]` is ordered as `["all", "flat-footed", "trait:fire"]` |
| `RollDetails.CriticalLabel` | src/module/chat-message/roll-inspector.ts:47-50 | The critical label is `null` exactly when `critical` is not a boolean (the same expression is used for modifiers at lines 56-59) |
| `RollDetails.CriticalLabelSpec` | src/module/chat-message/roll-inspector.ts:47-50 | The critical label is `null` exactly when `critical` is not a boolean; otherwise it is the localisation of the `CriticalBehavior` key for that boolean |
| `RollDetails.CriticalKeysDiffer` | src/module/chat-message/roll-inspector.ts:49 | The keys for `true` and `false` differ, so the label really is a lookup keyed by the boolean |
| `RollDetails.ComposeValue` | src/module/chat-message/roll-inspector.ts:44-46 | The dice value is both labels joined by one space when both are non-empty, the one non-empty label when only one is, and `""` when neither is |
| `RollDetails.ComposeValueEmpty` | src/module/chat-message/roll-inspector.ts:44-46 | The dice value is `""` exactly when neither the value label nor the override label is a non-empty string |
| `RollDetails.ContextualGroupsSpec` | src/module/chat-message/roll-inspector.ts:68-73 | Group `k` is the header and the unchanged option list of the entry at the `k`-th kept position; the kept positions ascend, and a position is kept exactly when its option list is present and non-empty |
| `RollDetails.ContextualGroups` | src/module/chat-message/roll-inspector.ts:68-73 | There is at most one group per entry, and no group is shown with an empty option list |
| `RollDetails.GetData` | src/module/chat-message/roll-inspector.ts:28-74 | The view model (with the `dice` and `modifiers` getters' `?? []` defaults) keeps the context as stored, has one prepared entry per stored die and per stored modifier, each built from its own raw record in stored order, and lists as many roll options as the context has; its contextual groups are stated by `GetDataContextualOptions` |
| `RollDetails.GetDataContextualOptions` | src/module/chat-message/roll-inspector.ts:38-73 | The contextual groups are `[]` when the context is missing or has no `contextualOptions` (the `{}` default), and otherwise exactly `ContextualGroups` of the context's entries |
| `RollDetails.GetDataRollOptions` | src/module/chat-message/roll-inspector.ts:37-40 | Roll options are `[]` when the context or its options are missing; otherwise they are a permutation of the options, plain group first, both groups ascending |
| `RollDetails.DomainsOf` | src/module/chat-message/roll-inspector.ts:65 | `context?.domains?.sort() ?? []` is `[]` without a context or domains list, and otherwise holds exactly the domains; it is always in ascending order |
| `RollDetails.GetDataDomains` | src/module/chat-message/roll-inspector.ts:65 | Domains are `[]` when the context or its domains are missing; otherwise they are the domains in plain ascending order, with no grouping |
| `RollDetails.GetDataDice` | src/module/chat-message/roll-inspector.ts:42-51 | Dice keep their number, order and raw records; a die's value is its value label and override label composed as `ComposeValue` states, and its critical label is `CriticalLabel` of its own `critical` |
| `RollDetails.GetDataModifiers` | src/module/chat-message/roll-inspector.ts:53-60 | Modifiers keep their number, order and raw records; a modifier's value is `signedInteger(modifier)`, and its critical label is `CriticalLabel` of its own `critical` |
| `SearchFilter.RollOptionsList.OnSearchFilter` | src/module/chat-message/roll-inspector.ts:119-126 | The rows become the rows after the first loop, and the sub-lists become the sub-lists recomputed from those new rows; nothing else changes |
| `SearchFilter.SearchState` | src/module/chat-message/roll-inspector.ts:119-126 | The search keeps every row's text and header class and every sub-list's members, and the sub-lists still name existing rows |
| `SearchFilter.RowsAfterSearchSpec` | src/module/chat-message/roll-inspector.ts:119-121 | After the search, a plain row is hidden exactly when the query is non-empty and occurs nowhere in its text; header rows are untouched, and no row's text or class changes |
| `SearchFilter.EmptyQueryShowsAll` | src/module/chat-message/roll-inspector.ts:120 | An empty query shows every plain row, and every sub-list that holds one |
| `SearchFilter.SubListsAfterSearchSpec` | src/module/chat-message/roll-inspector.ts:124-126 | A sub-list is hidden exactly when every plain row in it is hidden; a sub-list without plain rows is hidden; members do not change |
| `SearchFilter.SubListHiddenIffNoMatch` | src/module/chat-message/roll-inspector.ts:119-126 | Both loops together: a sub-list ends hidden exactly when, for every plain row in it, the query is non-empty and occurs nowhere in the row's text; a sub-list without plain rows ends hidden |
| `SearchFilter.SearchIdempotent` | src/module/chat-message/roll-inspector.ts:119-126 | Searching again for the same query leaves every flag as the first search set it |
| `SearchFilter.SearchIgnoresPreviousFlags` | src/module/chat-message/roll-inspector.ts:119-126 | The result depends only on the query, the row texts, the header classes and the sub-list membership, not on the flags the last search left |
| `SearchFilter.SearchExample` | src/module/chat-message/roll-inspector.ts:120 | The match is case-sensitive: the query `fire` shows `trait:fire` and hides `Fire` |

## Left out

- The `Application` subclass, its constructor and `defaultOptions` (lines 7-26) are host-framework configuration with no behaviour.
- `activateListeners` (lines 77-110) is not modelled. It is DOM queries, an async `renderTemplate` call and tooltip-manager calls, and it builds `ModifierPF2e` and `DamageDicePF2e` objects whose `getRollOptions` is not part of this model. The silent skip on a missing index goes with it. Its ordering of each object's roll options at line 95 is the same expression as line 40, so it is `RollOptions.OrderRollOptions`.
- `sort()` at lines 40 and 65 sorts the message's own flag arrays in place. The model returns a new sorted sequence and does not model that mutation of the flags. As a consequence, the `context` that `getData` returns (line 63) holds `options` and `domains` already sorted in the source, while in the model (`GetData` ensures `r.context == flags.context`) it keeps their stored order.
- `game.i18n.localize`, `signedInteger`, `getDamageDiceValueLabel` and `getDamageDiceOverrideLabel` are opaque function parameters. Their output, including the sign formatting, is not specified.
- The raw modifier record carries only the two fields the inspector reads (`modifier`, `critical`); the fields the spread only copies (slug, label, type and so on) are left out. A raw damage die carries `critical` and an abstract `details` value of a type parameter `D` that stands for the rest of the record (slug, dice count, die size, modifier, override), which only the two label helpers read.
- A modifier's `modifier` is a JavaScript `number` and is modelled as an `int`. The value only reaches the opaque `signedInteger`, so fractional values, `NaN` and infinities change nothing the model states. The spread `...dice` / `...mod` is modelled by keeping the whole raw record in `Prepared.raw`.
- `Object.entries(contextualOptions)` is taken as given: the model receives the entries in JavaScript's property enumeration order (integer-like keys first, then insertion order), and that order is not derived.
- SearchIdempotent: assumes a row's `innerText` is the same whether or not the row is rendered. In a browser, `innerText` of an element that is not rendered (hidden itself, or inside a hidden sub-list) is its raw text content, while a rendered element's is the whitespace-collapsed text after CSS transforms. The two agree for single-token roll options such as `trait:fire`; where they differ, the second search may read different text than the first.
- SearchIgnoresPreviousFlags: makes the same assumption about `innerText`, for the same reason: otherwise the text the first loop reads depends on the `hidden` flags the previous search left.
- For the search filter, `innerText` is a row's `text` field, and the CSS selectors are explicit structure. `:scope li:not(.header)` is every non-header row of the row array. `:scope > ul.sub-list` is the sub-list array, which holds only direct-child sub-lists. A sub-list's `li:not(.header)` is its member rows that are not headers. Rendering (a header inside a hidden sub-list is not shown because its parent is hidden) is not modelled.
- The ordering, the search and the localisation keys are modelled on UTF-16 code units. Source literals are all ASCII and are written with `Ascii`, so no surrogate-pair encoding is needed.
