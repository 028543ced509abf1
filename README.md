# Input components: verified model of their state machines

This project models the behaviour behind four form-input widgets of a React
component library and proves properties of that model in Dafny. The
rendering is left aside; what remains is four small, sequential state
machines:

- **Faceted filter** (`faceted_filter.dfy`, module `FacetedFilter`): the
  filter value is a list of option values. Choosing an option toggles its
  value in the `Set` built from that list and writes the Set back as a list.
  "Clear filters" empties it. The trigger button shows no badges, one badge
  per selected option, or one "N selected" badge.
- **Combobox input** (`command_input.dfy`, module `CommandInput`): the state
  cells `open`, `input` and `currentOption`, with the key-down, blur, select,
  text-change and focus handlers. The list of ignored keys contains
  `"Escape"`, so the handler returns before it reaches its own Escape branch.
  The model keeps that branch and proves that Escape changes nothing.
- **Debounce hook** (`use_debounce.dfy`, module `Debounce`): a settled value
  and at most one pending timer, on a discrete clock. Any change of the
  effect's dependencies (value, delay, callback) cancels the pending timer
  and schedules a new one. `State` and the `After*` functions specify the
  hook; the class `Debouncer` updates its fields in place and its methods are
  proved equal to those functions.
- **Debounced input** (`debounced_input.dfy`, module `DebouncedInput`): the
  initial-value rule, the live value that follows every keystroke, and the
  effect that mirrors the settled value into the query string. The query
  string is a list of name/value pairs (`search_params.dfy`, module
  `SearchParams`), with `get`, `set` and `delete` as section 6.2 of the WHATWG
  URL Standard defines them for URLSearchParams.

`types.dfy` holds the shared types. `Maybe<T>` models a TypeScript value
that may be `undefined`. `Option` is the source's option record. Dafny
reserves the word `label`, so the record's `label` field is named `caption`.
Callbacks are represented by an identity number (`Maybe<nat>`), and every
call is recorded as a `Call(callback, value)`.

`useControllableState` (the controlled/uncontrolled value helper) is not part
of this model. Its setter is modelled as a plain write of the component's
state cell. `startTransition` and `router.replace` are external too. The
model records each navigation the input asks for as the parameter list of
the requested URL (`Input.requests`).

The model follows the code, including where it behaves differently from what such components are usually expected to do:

- Changing the delay cancels a timer that is already pending and schedules a
  new one, because `delay` is a dependency of the hook's effect
  (src/hooks/use-debounce.ts:19). A delay change does not wait for the next
  timer.
- With a `queryKey` and a `startTransition`, the input asks for a navigation
  as soon as it mounts. At mount the settled value equals the live value, so
  the mirror effect runs in full (src/components/debounced-input.tsx:72-90).
  In the "Par", then "Paris" case there are therefore two requests: the
  mount's, and one for `search=Paris` 500 ms after the last keystroke
  (`DebouncedInput.ParisScenario`). The callback still runs exactly once.
- The callback runs every time a timer fires. This includes the timer
  scheduled at mount, which runs even if nothing changed. It also includes a
  value that changes and then changes back before the timer fires, so the
  callback can receive the same settled value again.
- Escape neither clears the input nor closes the list. Its branch at
  src/components/command-input.tsx:138-141 cannot be reached.
- `!queryKey` is also true for the empty key, so `""` turns the mirror off.
  Without a `queryKey`, however, the initial value reads the parameter named
  `""`, through `searchParams.get(queryKey ?? "")`.

## Model

| member | source | states |
|---|---|---|
| `SearchParams.Get` | src/components/debounced-input.tsx:68 | `get` finds nothing exactly when no pair has the name |
| `SearchParams.GetAt` | src/components/debounced-input.tsx:68 | `get` returns the value of the first pair with the name |
| `SearchParams.Delete` | src/components/debounced-input.tsx:81 | after `delete`, no pair has the name, and the remaining pairs are exactly the input's pairs with other names |
| `SearchParams.ReplaceFirstContents` | src/components/debounced-input.tsx:79 | the WHATWG set step for a present name: the new pair is in the result and is the only pair with the name, pairs with other names keep their membership, and the list does not grow |
| `SearchParams.Set` | src/components/debounced-input.tsx:79 | after `set`, the new pair is present; an absent name is appended at the end of the list; a present one does not lengthen the list |
| `SearchParams.SetContents` | src/components/debounced-input.tsx:79 | after `set`, the new pair is the only pair with the name, and the pairs with other names are exactly those of the input |
| `SearchParams.DeleteAppend` | src/components/debounced-input.tsx:81 | `delete` distributes over concatenation, so the surviving pairs keep their order |
| `SearchParams.DeleteAbsent` | src/components/debounced-input.tsx:81 | `delete` leaves a list without the name unchanged |
| `SearchParams.DeleteIdempotent` | src/components/debounced-input.tsx:81 | deleting twice is the same as deleting once |
| `SearchParams.DeleteKeepsOthers` | src/components/debounced-input.tsx:81 | `delete` keeps what `get` returns for every other name |
| `SearchParams.SetAtFirst` | src/components/debounced-input.tsx:79 | when the name is present at first index i, `set` keeps the pairs before i, overwrites the pair at i, removes later pairs with the name, and keeps the other later pairs in order |
| `SearchParams.SetFirstIndex` | src/components/debounced-input.tsx:79 | the pair written by `set` has no pair with its name before it or after it |
| `SearchParams.SetGet` | src/components/debounced-input.tsx:79 | after `set(name, value)`, `get(name)` is `value` |
| `SearchParams.SetCount` | src/components/debounced-input.tsx:79 | after `set`, exactly one pair has the name |
| `SearchParams.DeleteSetAt` | src/components/debounced-input.tsx:79 | `set` keeps every pair with another name, unchanged and in order |
| `SearchParams.SetKeepsOthers` | src/components/debounced-input.tsx:79 | `set` keeps what `get` returns for every other name |
| `SearchParams.SetIdempotent` | src/components/debounced-input.tsx:79 | setting the same pair twice is the same as setting it once |
| `FacetedFilter.Dedup` | src/components/faceted-filter.tsx:122 | the Set built from the filter value has no duplicates and holds exactly the list's values |
| `FacetedFilter.DedupNoDuplicates` | src/components/faceted-filter.tsx:122 | for a list without duplicates, the Set's insertion order is the list itself |
| `FacetedFilter.DedupSize` | src/components/faceted-filter.tsx:145-153 | the Set's `size` is the number of distinct selected values |
| `FacetedFilter.Without` | src/components/faceted-filter.tsx:198 | `Set.delete` removes that one value and keeps the other members and their uniqueness |
| `FacetedFilter.Toggled` | src/components/faceted-filter.tsx:196-205 | a selected value is removed and an unselected one added; every other value keeps its membership; the written list has no duplicates |
| `FacetedFilter.ToggleTwice` | src/components/faceted-filter.tsx:196-205 | choosing an option twice restores the selected set; for an unselected value it gives back the deduplicated list, which is the list itself when it had no duplicates; for a selected value it moves that value to the end |
| `FacetedFilter.Chosen` | src/components/faceted-filter.tsx:156-157 | the filtered options are exactly the listed options whose value is selected |
| `FacetedFilter.ChosenAppend` | src/components/faceted-filter.tsx:156-157 | the filter distributes over concatenation, so the chosen options keep the option-list order |
| `FacetedFilter.ChosenAll` | src/components/faceted-filter.tsx:156-157 | with every value selected, every option is chosen, in order |
| `FacetedFilter.Captions` | src/components/faceted-filter.tsx:158-166 | one label per chosen option, position by position |
| `FacetedFilter.Trigger` | src/components/faceted-filter.tsx:138-167 | no badges iff nothing is selected; the small badge counts the distinct selected values; more than 2 selected gives one "N selected" badge; 1 or 2 selected give the labels of the chosen options in option order |
| `FacetedFilter.ClearOffered` | src/components/faceted-filter.tsx:235 | "Clear filters" is offered exactly when the filter value is non-empty |
| `FacetedFilter.Filter.constructor` | src/components/faceted-filter.tsx:116-120 | the filter starts with the value it is given |
| `FacetedFilter.Filter.Select` | src/components/faceted-filter.tsx:196-205 | choosing an option writes the toggled value |
| `FacetedFilter.Filter.Clear` | src/components/faceted-filter.tsx:240 | "Clear filters" writes the empty value, after which the item is no longer offered |
| `CommandInput.FindByCaption` | src/components/command-input.tsx:131-135 | the option found has the input as its label; nothing is found iff no option has that label |
| `CommandInput.FindByCaptionFirst` | src/components/command-input.tsx:132-134 | the option found is the first one with that label |
| `CommandInput.IgnoredKeysCover` | src/components/command-input.tsx:96-122 | the ignored keys include Escape, and exclude Enter, Backspace and every single-character key |
| `CommandInput.SelectionIsSingle` | src/components/command-input.tsx:202 | `isSelected` marks no option without a current option, marks the current option itself, and never marks two different values |
| `CommandInput.Combobox.constructor` | src/components/command-input.tsx:85-90 | the list starts closed with empty input, and the current option is the `value` prop |
| `CommandInput.Combobox.KeyDown` | src/components/command-input.tsx:92-144 | an ignored key (Escape among them), or no mounted input, changes nothing; any other key opens the list and keeps the input; Enter with non-empty input sets the current option to the first option with that label, or to none; other keys keep the current option |
| `CommandInput.Combobox.Blur` | src/components/command-input.tsx:146-149 | blur closes the list and resets the input to the current option's label, or to "" |
| `CommandInput.Combobox.Select` | src/components/command-input.tsx:151-158 | choosing an option sets the input to its label, makes it current and closes the list; then an option is marked selected iff its value equals the chosen one's (line 202) |
| `CommandInput.Combobox.ValueChange` | src/components/command-input.tsx:168-173 | the input takes the new text; "" clears the current option; other text keeps it |
| `CommandInput.Combobox.Focus` | src/components/command-input.tsx:175-179 | focus opens the list only when `immediate` is set, and changes nothing else |
| `Debounce.AfterMount` | src/hooks/use-debounce.ts:8-14 | the settled value starts as the initial value; the first effect run schedules a timer for it; the invariant holds |
| `Debounce.AfterTick` | src/hooks/use-debounce.ts:11-14 | advancing the clock keeps the invariant and the dependencies |
| `Debounce.AfterChange` | src/hooks/use-debounce.ts:10-19 | a re-render keeps the invariant and neither settles a value nor calls anyone; when mounted and any of value, delay or callback differs, the pending timer is replaced by one for the new dependencies, one delay from now; otherwise the state is unchanged |
| `Debounce.AfterTeardown` | src/hooks/use-debounce.ts:16-18 | teardown cancels the pending timer and keeps the settled value and the calls |
| `Debounce.BeforeDeadline` | src/hooks/use-debounce.ts:11-14 | before its deadline, a timer does nothing |
| `Debounce.Fires` | src/hooks/use-debounce.ts:11-14 | at its deadline, the timer settles the value it was scheduled with and passes that same value to its callback, once |
| `Debounce.MountFires` | src/hooks/use-debounce.ts:10-14 | with no change, the mount-time timer fires after the delay and calls the callback once with the initial value |
| `Debounce.Converges` | src/hooks/use-debounce.ts:8-19 | with no further change, the settled value equals the value one delay later |
| `Debounce.SilentAfterTeardown` | src/hooks/use-debounce.ts:16-18 | after teardown, no sequence of events calls the callback or moves the settled value |
| `Debounce.BurstDefers` | src/hooks/use-debounce.ts:10-19 | during a burst of changes, each closer to the previous one than the delay, nothing settles and no one is called; afterwards the only pending timer is for the last value, one delay after it; this holds from a settled hook with nothing pending as well as from one with a timer due after the first gap |
| `Debounce.BurstSettlesLast` | src/hooks/use-debounce.ts:10-19 | one delay of quiet after the burst settles the last value and calls the callback exactly once, with that value |
| `Debounce.DelayChangeRestarts` | src/hooks/use-debounce.ts:14-19 | changing only the delay replaces the pending timer by one a new delay from now, and nothing settles or is called before it, even past the old deadline |
| `Debounce.CallbackChangeRedirects` | src/hooks/use-debounce.ts:13-19 | changing only the callback makes the timer one delay from now call the new callback with the value, and not the old one |
| `Debounce.Debouncer.constructor` | src/hooks/use-debounce.ts:8-14 | mounting builds the state `AfterMount` describes |
| `Debounce.Debouncer.Change` | src/hooks/use-debounce.ts:10-19 | a re-render updates the fields as `AfterChange` does: a change of the value, the delay or the callback cancels the timer and schedules a new one, and equal dependencies keep the pending timer |
| `Debounce.Debouncer.Tick` | src/hooks/use-debounce.ts:11-14 | advancing the clock updates the fields as `AfterTick` does |
| `Debounce.Debouncer.Teardown` | src/hooks/use-debounce.ts:16-18 | unmounting updates the fields as `AfterTeardown` does |
| `DebouncedInput.InitialValue` | src/components/debounced-input.tsx:67-69 | the initial value is the `value` prop, else the first query parameter named `queryKey ?? ""`, else "" |
| `DebouncedInput.Mirror` | src/components/debounced-input.tsx:72-82 | the effect builds parameters iff the key is truthy and the settled value equals the live value |
| `DebouncedInput.FalsyKeyDisablesMirror` | src/components/debounced-input.tsx:73 | `!queryKey` holds of a missing key and of ""; both turn the mirror off, and any other key mirrors a caught-up value |
| `DebouncedInput.MirrorSets` | src/components/debounced-input.tsx:78-79 | a settled, non-empty value becomes the one pair under the key |
| `DebouncedInput.MirrorDeletes` | src/components/debounced-input.tsx:80-82 | a settled, empty value leaves no pair under the key |
| `DebouncedInput.MirrorIsolated` | src/components/debounced-input.tsx:76-82 | the pairs under other names keep their values and their order |
| `DebouncedInput.MirrorIdempotent` | src/components/debounced-input.tsx:76-82 | applying the mirror again with the same settled value gives the same parameters |
| `DebouncedInput.Input.constructor` | src/components/debounced-input.tsx:67-90 | at mount, the live value follows the initial-value rule, the hook is mounted, and the mirror effect runs once; without `startTransition` or a truthy key nothing is requested |
| `DebouncedInput.Input.Sync` | src/components/debounced-input.tsx:72-90 | the mirror effect appends the mirrored parameters as a navigation exactly when `startTransition` is supplied, the key is truthy and the settled value equals the live one; otherwise it requests nothing |
| `DebouncedInput.Input.Type` | src/components/debounced-input.tsx:96 | a keystroke sets the live value at once and leaves the settled value alone; a real change reschedules the hook and runs the mirror; without `startTransition` or a truthy key nothing is requested |
| `DebouncedInput.Input.Tick` | src/components/debounced-input.tsx:70-74 | when the timer settles a new value, the mirror runs with it; otherwise, and always without `startTransition` or a truthy key, no navigation is requested |
| `DebouncedInput.Input.UrlChanged` | src/components/debounced-input.tsx:90 | a URL change alone does not run the mirror, because the parameters are not among its dependencies |

## Left out

- Rendering, class names, styling, icons, popover positioning and the
  presentation-only components: page header, site header, display card,
  providers and the demo page. They hold no logic.
- The phone input and its validation schema. They wrap formatting and
  validation libraries whose code is not part of this model.
- The places lookup in src/lib/actions.ts. It is a network fetch with
  environment access. Every failure there returns `[]` (lines 25-26).
- The react-query options in src/lib/query-options.ts. They are library
  configuration. Note that line 7 calls `getPlaces("")` where the function
  takes an object.
- The places combobox glue, including its rule `enabled: debouncedQuery.length > 0`
  (line 21). It passes the debounced query to an external fetch collaborator.
- `useControllableState`: its code is not part of this model. Its setter is
  a write of the component's cell; the controlled and uncontrolled modes are
  not told apart. When neither `value` nor `defaultValue` is given, the
  faceted filter's cell is `undefined` (src/components/faceted-filter.tsx:116-120).
  The model starts it at `[]`. This changes nothing, because
  `new Set(undefined)` (line 122) is empty, as is the Set of `[]`.
- Real timers and React's scheduling. Time is an explicit clock. A re-render
  (`Change`) happens at the current clock, and the caller ticks the clock
  before a change to fire a timer that is due.
- How `setTimeout` converts its delay. Delays here are natural numbers and a
  timer runs out exactly `delay` after it was scheduled. A browser converts
  the delay to a 32-bit signed integer, so several delays behave differently
  there. A delay of 2^31 ms or more wraps modulo 2^32 into the signed
  32-bit range. So from 2^31 up it becomes negative, and from 2^32 up it
  becomes a small delay again. A negative result, like a negative delay, is
  clamped to 0 and fires at once. A fractional delay is truncated. `NaN` counts as 0. The model therefore says nothing about a
  `delay` (src/hooks/use-debounce.ts:14) or `debounceMs`
  (src/components/debounced-input.tsx:57) outside 0 to 2^31 - 1 whole
  milliseconds. Fractions and `NaN` cannot be written in it at all.
- `Debounce.Debouncer.Change`: it takes the dependencies and no time
  argument; the time is the clock that `Tick` last set.
- Callback identity. A parent that passes a new `onValueChange` closure on
  each render would reschedule the timer each time. `DebouncedInput.Input`
  keeps one callback identity, one `queryKey` and one delay for its whole
  lifetime.
- URL serialisation: percent-encoding, `toString`, the pathname and the
  `scroll: false` option. The model stops at the list of pairs.
- `FacetedFilter.Filter.Select`: it toggles against the current filter value.
  All items' handlers share one `selectedValues` Set
  (src/components/faceted-filter.tsx:122), which `onSelect` changes in place
  (lines 198-200). Only each item's `isSelected` (line 191) is fixed at
  render time. So for two clicks handled before React re-renders:
  - On two different options, the source adds to the shared Set and the
    selection accumulates, as in the model.
  - On the same option twice, the source reads the stale `isSelected` and
    deletes or adds the value a second time, leaving it as after the first
    click. The model toggles it back instead. This case is not modelled.
- Handlers passed through the props spread. In
  src/components/debounced-input.tsx:98 `{...props}` comes after the
  `onChange` at line 96. `onChange` is not taken out of the props (lines
  53-62), so a caller's `onChange` replaces the keystroke handler: the live
  value no longer follows the field and the mirror never runs. Likewise,
  src/components/command-input.tsx:182 spreads the props after `onBlur` and
  `onFocus` (lines 174-179), which `ComboboxInputProps` does not omit (lines
  23-27). So a caller's `onBlur` or `onFocus` replaces the component's own.
  `DebouncedInput.Input.Type`, `CommandInput.Combobox.Blur` and
  `CommandInput.Combobox.Focus` assume the caller passes no `onChange`,
  `onBlur` or `onFocus`.
- `CommandInput.Combobox.KeyDown`: it models only the component's own
  handler (src/components/command-input.tsx:92-144). The DOM input's text is
  taken to be the `input` state, which is the input field's controlled value.
  The handler is installed on the `Command` list primitive (lines 161-164).
  That primitive's code is not part of this model, and the handler never
  calls `preventDefault`. So the primitive's own handling of the same key
  event is not modelled: the arrow, Home and End moves across the list, and
  Enter choosing the highlighted item through its `onSelect` (line 212),
  which would be a `Select`. The "Escape" and Enter statements above are
  statements about that handler alone.
