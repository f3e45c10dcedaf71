# Picklist: a verified model of the dropdown selection widget

This project models the behaviour of the `Picklist` component of a React component library
(`src/scripts/Picklist.js`): a button that opens a menu of options, single- or multi-select,
with keyboard and blur handling. Rendering, DOM focus and timers are stripped away. What remains
is a small deterministic core:

- **Selection** (`selection.dfy`): the selection is an ordered sequence of option values. An item
  pick toggles the value in multi-select mode and replaces the selection by `[v]` in
  single-select mode (`updateItemValue`). The selected flag of a rendered option is membership
  of its value (`renderPicklistItem`).
- **Label** (`label.dfy`, `decimal.dfy`): the button text derived from the selection, the
  declared options and the placeholder (`getSelectedItemLabel`). JavaScript truthiness of the
  `label || children` and `selected || selectedText` fallbacks is modelled through a `Content`
  type (absent, string, integer, other element). The count message uses the decimal text of
  the count.
- **State machine** (`picklist.dfy`): the state is `State(isOpen, value)`, mirroring the
  component's `opened` and `value` state fields. Each handler (`onClick`, `onKeydown`,
  `onPicklistItemClick`, `onPicklistClose`, `onBlur`) is one `Event`. `Step` returns the next
  state, the caller notifications in the order they fire (`Change`, `Select`, `Complete`,
  `Blur`, `KeyDown`), focus moves (`FocusItem`, `FocusButton`) and the timers it schedules. Each
  `setTimeout` body is a `Timer` whose firing is `Fire`: the delayed close after a
  single-select pick (`CloseTimer`), the blur re-check (`BlurTimer`, given whether focus is
  then inside the component) and the deferred focus move into the menu (`FocusTimer`).
  `Deliver` drops the notifications whose optional callback was not supplied.
- **Runs** (`scheduler.dfy`): a `Machine` pairs the state with the queue of outstanding
  timers. User events queue the timers their handler schedules, and any queued timer may fire
  at any later point. The props (`Config`) are fixed for a whole run. Run-level lemmas state
  the invariants:
  - the selection changes only by picks;
  - a single-select selection holds at most one value;
  - a multi-select selection that starts duplicate-free stays so. After any run, interleaved
    with any other inputs, it holds exactly the values that were selected at the start xor
    clicked an odd number of times;
  - with `multiSelect` on throughout, no delayed close is ever queued. A run with no Escape
    key and no timer fired while focus is outside the component emits no `onComplete`,
    however many items are picked;
  - two worked scenarios come out as expected: single-select A then B, and multi-select A,
    B, A.

Option values are a type parameter with equality, which stands for JavaScript's strict
equality on the string and integer values a picklist holds.

The model follows the code, including where it differs from what a reader of the handlers'
names might expect. The one exception is the menu rendering defect under "## Findings": there
the model records the code as written and then uses the evidently intended behaviour.
- Escape closes and fires `onComplete` whether or not the menu was open.
- A single-select pick does not change the open flag itself. Only the delayed close does, and
  that close fires even if the menu was reopened in between.
- A multi-select pick of a value the selection holds twice removes only its first occurrence.
  The caller's `defaultValue` may hold such duplicates.

## Model

| member | source | states |
|---|---|---|
| Decimal.FromNat | src/scripts/Picklist.js:109 | the count is rendered as its shortest decimal text: non-empty, digits only, no leading zero (zero itself is the single digit "0"), and it reads back as the count |
| Selection.IndexOf | src/scripts/Picklist.js:134 | `indexOf` gives -1 exactly when the value is absent, otherwise the position of its first occurrence |
| Selection.RemoveAt | src/scripts/Picklist.js:139 | `splice(i, 1)` drops one element: length shrinks by one, the multiset loses exactly that element, elements before keep their place and elements after shift down by one |
| Selection.Toggle | src/scripts/Picklist.js:130-141 | an absent value is appended, leaving the old selection as a prefix; a present value is removed once, leaving the length one less and the multiset without one copy of it |
| Selection.Pick | src/scripts/Picklist.js:127-146 | single-select gives exactly `[v]`; multi-select applies the toggle rule to the whole selection (append when absent, drop the first occurrence when present); from a duplicate-free selection, v is selected afterwards iff single-select or it was not selected before; multi-select keeps the selection duplicate-free |
| Selection.IsSelected | src/scripts/Picklist.js:208 | an option's selected flag is exactly membership of its value in the selection |
| Selection.ToggleRemovesFirstOccurrence | src/scripts/Picklist.js:137-140 | removing a present value deletes its first occurrence; the elements before and after it stay, in order |
| Selection.ToggleKeepsNoDup | src/scripts/Picklist.js:130-141 | a duplicate-free selection stays duplicate-free, and the toggle flips the picked value's membership while every other value keeps its own |
| Selection.ToggleTwiceRestores | src/scripts/Picklist.js:130-141 | picking an absent value twice in multi-select mode restores the original selection |
| Selection.ToggleAllIsParity | src/scripts/Picklist.js:130-141 | after any sequence of multi-select picks from a duplicate-free selection, the result is duplicate-free and a value is selected iff it was selected initially xor picked an odd number of times |
| Label.ItemText | src/scripts/Picklist.js:118 | an option's text is its `label` when that is truthy, else its `children`; it is truthy iff either is |
| Label.ScanFindsLastMatch | src/scripts/Picklist.js:115-120 | the `forEach` overwrite scan ends with the text of the last option whose value equals the selected one, found independently by a search from the end, or with its initial value when none matches |
| Label.SelectedItemLabel | src/scripts/Picklist.js:104-125 | no value gives the placeholder; more than one gives "<digits> Options selected", where the digits have no leading zero and read back as the count; one value gives the last matching option's text when it is truthy and the placeholder when no option matches or the text is falsy |
| Label.Caption | src/scripts/Picklist.js:183 | the button caption is never falsy: the label when it is truthy, a non-breaking space otherwise |
| Picklist.MakeConfig | src/scripts/Picklist.js:252-256 | omitted props default to single-select and the placeholder "Select an Option"; supplied props are kept |
| Picklist.Init | src/scripts/Picklist.js:11-17 | the menu starts open only when `defaultOpened` is true; the selection starts as `defaultValue`, empty when omitted |
| Picklist.Step | src/scripts/Picklist.js:26-102 | only an item click changes the selection, by the pick rule, notifying Change then Select and leaving the open flag; Complete is fired synchronously exactly by Escape; every keydown ends with KeyDown; a delayed close is scheduled exactly by a single-select pick and a blur re-check exactly by a blur |
| Picklist.Fire | src/scripts/Picklist.js:28-76 | no deferred body changes the selection or schedules more; the delayed close and an outside blur re-check leave the menu closed and emit exactly one Complete; the focus timer and an inside blur re-check leave the state unchanged and notify nobody |
| Picklist.ClickToggles | src/scripts/Picklist.js:26-31 | a click flips the open flag, keeps the selection, notifies nobody and defers a focus move |
| Picklist.DownArrowOpens | src/scripts/Picklist.js:80-101 | down-arrow leaves the menu open whatever it was, keeps the selection and forwards only KeyDown; it moves focus at once when already open and defers it otherwise |
| Picklist.EscapeCompletesOnce | src/scripts/Picklist.js:91-101 | Escape closes the menu, keeps the selection and fires exactly one Complete, before KeyDown |
| Picklist.OtherKeyForwarded | src/scripts/Picklist.js:79-102 | any other key leaves the state unchanged and is only forwarded as KeyDown |
| Picklist.FocusOutOnlySchedules | src/scripts/Picklist.js:65-77 | a blur itself leaves the state unchanged and notifies nobody; it only queues the re-check |
| Picklist.MenuCloseIsSilent | src/scripts/Picklist.js:59-63 | the menu's close request closes it and returns focus to the button without notifying |
| Picklist.BlurCheck | src/scripts/Picklist.js:65-77 | the blur re-check with focus outside closes the menu and fires Blur then Complete; with focus inside it changes nothing |
| Picklist.PickTimeoutCloses | src/scripts/Picklist.js:43-54 | the delayed close shuts the menu, fires one Complete and returns focus to the button |
| Picklist.MenuView | src/scripts/Picklist.js:191-211 | a closed menu renders no options; an open one renders every option in order, each flagged selected exactly when its value is in the selection |
| Picklist.MenuViewAsWritten | src/scripts/Picklist.js:201-208 | as written, rendering fails exactly when the menu is open with at least one option, because the per-option callback runs with `this` undefined; otherwise it renders what `MenuView` does |
| Picklist.OpenMenuWithOneOptionThrows | src/scripts/Picklist.js:201-208 | an open menu with one option fails to render as written, where the intended rendering shows that option unselected |
| Picklist.ButtonCaption | src/scripts/Picklist.js:182-184 | the caption is always truthy: the selected-item label whenever that is truthy, a non-breaking space otherwise; so with nothing selected and a truthy placeholder it is the placeholder |
| Picklist.Deliver | src/scripts/Picklist.js:37-48 | a notification reaches the caller iff its callback was supplied; nothing else is delivered |
| Picklist.DeliverAppend | src/scripts/Picklist.js:37-48 | skipping absent callbacks preserves the order of notifications: delivering two traces in turn equals delivering their concatenation |
| Scheduler.Apply | src/scripts/Picklist.js:26-77 | a handler call only appends to the timer queue; firing a queued timer removes exactly that timer and keeps the selection; firing a missing index changes nothing |
| Scheduler.RunWithoutPicksKeepsSelection | src/scripts/Picklist.js:26-102 | a run of inputs with no item click leaves the selection unchanged |
| Scheduler.RunSingleKeepsAtMostOne | src/scripts/Picklist.js:142-145 | in single-select mode a selection of length at most one stays so through any run |
| Scheduler.RunKeepsNonEmpty | src/scripts/Picklist.js:142-145 | in single-select mode no input empties a non-empty selection |
| Scheduler.RunSingleAfterPickHoldsOne | src/scripts/Picklist.js:142-145 | in single-select mode, after a pick, exactly one value is selected whatever follows |
| Scheduler.RunMultiKeepsNoDup | src/scripts/Picklist.js:130-141 | in multi-select mode a duplicate-free selection stays duplicate-free through any run |
| Scheduler.RunMultiClicksToggle | src/scripts/Picklist.js:33-35 | in multi-select mode a run of item clicks applies the toggle rule once per click, in order |
| Scheduler.RunMultiFollowsPicks | src/scripts/Picklist.js:26-102 | in multi-select mode any run, with any inputs interleaved, leaves the selection its item clicks produce under the toggle rule, in order |
| Scheduler.RunMultiSelectsOddlyPicked | src/scripts/Picklist.js:130-141 | in multi-select mode, from a duplicate-free selection, any run ends duplicate-free with exactly the values selected at the start xor clicked an odd number of times |
| Scheduler.RunMultiNeverQueuesClose | src/scripts/Picklist.js:43-54 | in multi-select mode no delayed close is ever queued |
| Scheduler.RunMultiCompletesOnlyOnEscapeOrBlur | src/scripts/Picklist.js:33-102 | in multi-select mode a run with no Escape and no timer fired while focus is outside emits no Complete, however many items are picked |
| Scheduler.SinglePickThenClose | src/scripts/Picklist.js:33-57 | a single-select pick notifies Change then Select and queues the close; firing it closes the menu and adds exactly one Complete |
| Scheduler.SingleSelectScenario | src/scripts/Picklist.js:104-146 | single-select with options A and B: picking A selects [A], labels "A" and closes; reopening and picking B selects [B] |
| Scheduler.MultiSelectScenario | src/scripts/Picklist.js:127-146 | multi-select from empty: picking A gives [A], then B gives [A, B], then A again gives [B] |

## Findings

| source | as written | input that shows it | evidently intended | confidence | as-written member | corrected member |
|---|---|---|---|---|---|---|
| src/scripts/Picklist.js:201-208 | `renderPicklistItem` is a prototype method passed unbound to `React.Children.map`, so inside it `this` is undefined (class bodies are strict) and `this.state.value` throws | `defaultOpened` true and one option declared: rendering the open menu throws, so no item can be clicked | every option rendered in order with its selected flag, as for the bound handlers at lines 26-79 | not executed; read from the code | Picklist.MenuViewAsWritten (shown by Picklist.OpenMenuWithOneOptionThrows) | Picklist.MenuView |

## Left out
- Picklist.MenuView: assumes the per-option callback is bound to the component. As written it
  is not, and an open menu with options fails to render (see "## Findings"). The state
  machine's item clicks assume the intended rendering.
- Props are constant over a run: `Step`, `Fire` and `Run` take one `Config`, and `Deliver` one
  `Handlers` value. The code reads `this.props` afresh in every handler and timer body
  (lines 34, 43, 46, 69-73, 95, 99). So a close queued in single-select mode still fires
  `onComplete` if `multiSelect` is switched on before it runs. The multi-select run lemmas do
  not cover props that change mid-run.

- Rendering: JSX, class names, ARIA attributes, the `FormElement`, `Button`, `Icon`,
  `DropdownMenu` and `PicklistItem` components, and propTypes. These are presentation, and the
  collaborating components are not part of this model. Only the rendered facts the behaviour
  depends on are kept: the selected flags, the option list shown only while open, and the
  caption fallback.
- The generated `uuid` identifier (line 14). It is a foreign, nondeterministic library call.
- `componentDidUpdate` and `onValueChange` (lines 20-24). They compare array identity across
  React's update cycle. Every pick builds a fresh array (lines 131, 144), so the callback fires
  after every pick, including a single-select re-pick of the value already selected.
- Timer delays (10 ms, 200 ms) and cancellation. Timers are queued and may fire in any order at
  any later point. Firing after the component is torn down is not modelled.
- `isFocusedInComponent` (lines 148-155). Its DOM ancestor walk becomes the `focusInside` input
  of a timer firing.
- `focusToTargetItemEl` (lines 157-165). It is recorded only as a `FocusItem` effect. Which item
  receives focus depends on `DropdownMenuItem` markup, which is not part of this model.
- `preventDefault` and `stopPropagation`, which are DOM event plumbing. The `onChange` event
  argument is left out too, and `onSelect` is modelled by the picked value rather than the
  whole item object.
- A missing button element in `onPicklistClose` (line 61 would throw). The model assumes the
  button is mounted.
- Numeric values and labels are integers. NaN (never equal to itself, so `indexOf` cannot find
  it) and fractional numbers are not modelled. Options are a flat list, not nested React
  children; null children are not modelled either.
