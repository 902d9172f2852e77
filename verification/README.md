# Pace calculator — a Dafny model

This project models the logic of a multi-instance running pace calculator (a
Leptos web app). The page holds any number of calculator instances. Each takes a
pace (`mm:ss` per kilometre), a split interval and a distance (metres), checks
each edit, keeps the accepted values in a page-wide store, and derives a total
duration and a table of split times.

What is modelled, module by module:

- `FormStates` (`form_state.dfy`): the per-instance record and its default.
- `Registry` (`registry.dfy`): the application state of `main.rs`. The class
  `App` holds the ordered list of live ids, an id counter that only grows and
  the store map. Its methods are start-up, add, delete and the "update if
  present" store write. `Position` is the search loop inside delete. `Rows` is
  the rendered list with its "delete only below the first row" policy. A ghost
  set `retired` remembers deleted ids, so that "an id is never reused" can be
  stated.
- `CalculatorForm` (`pace_calculator_form.dfy`): the class
  `PaceCalculatorForm`, holding one instance's local field copies and its
  single shared error slot, seeded from the store. `TotalDuration` is the
  total-duration memo. `Total` and `Splits` are what the form shows, derived from
  its local fields. `Synced` says the store agrees with the local fields.
- `PaceInput`, `SplitsInput`, `DistanceInput`: the three edit handlers, as
  methods that change the form's local field, the error slot and the store
  entry. In each module `Edit` is the function giving the new local value and
  error for an edit, and the handler is proved to apply it. `PaceInput` also
  holds `parse_duration` and the round trip from a displayed total back
  through the pace field.
- `Numerals` (`numerals.dfy`): Rust's `str::parse` for unsigned integers,
  `trim` and the `trim().is_empty()` blank test, `str::split` on one character,
  and the `{}` / `{:02}` renderings.
- `DurationDisplay` (`total_duration.dfy`): `MM:SS` rendering, or a dash when
  there is no duration.
- `SplitsList` (`splits_list.dfy`): the loop that builds the split rows
  (`Entries`), the table it builds (`SplitTable`) and the table's properties.
- `Session` (`session.dfy`): whole edit sessions run through the handlers.

Modelling choices that follow the code:

- A numeral is an optional `+` then one or more ASCII digits, read from the
  untrimmed text. `" 5"` is therefore not blank but fails to parse. `trim()` is
  used only for the blank test.
- Parsing fails when the value exceeds the target type. Minutes and seconds
  are `u64`. Splits and distance are `usize`, taken as 32 bits: the app is
  mounted into a browser page, so it runs as 32-bit WebAssembly.
- The split rows convert the elapsed seconds with `as u32`, which saturates.
  `Elapsed` caps the value at `u32::MAX`.
- After an edit, the store receives the form's *local* value. A rejected edit
  therefore writes back the previous accepted value. It does not write the
  rejected text.
- A pace with one `:` and numeric parts is accepted as it is. Seconds may be 60
  or more, and `00:00` is accepted.

## Model

| member | source | states |
|---|---|---|
| `FormStates.Default` | src/form_state.rs:11-19 | the default record has pace 0, splits 0, distance 0 and shows splits |
| `FormStates.EqualIffFieldsEqual` | src/form_state.rs:3-9 | two records are equal exactly when all four fields are equal |
| `Registry.App.constructor` | src/main.rs:41-47 | start-up: forms is `[0]`, the counter is 1, the store holds exactly id 0 with the default record; the registry invariant holds |
| `Registry.App.AddForm` | src/main.rs:49-58 | the new id is the old counter value and is appended to the end of forms; it gets a default store entry; the counter grows by exactly 1; the id was neither live nor ever deleted; the invariant (ids below the counter, no duplicates, store keys = listed ids) is preserved |
| `Registry.App.DeleteForm` | src/main.rs:60-69 | forms loses `id` and keeps the others in order; the store loses exactly key `id`, all other entries unchanged; an absent id changes neither; the counter is unchanged; the invariant is preserved |
| `Registry.Position` | src/main.rs:62 | returns the first position holding `id`, or none exactly when `id` is not listed |
| `Registry.Without` | src/main.rs:61-65 | the list without `id` holds exactly the other ids, and is the list itself when `id` is absent |
| `Registry.RemoveAtIsWithout` | src/main.rs:62-63 | in a duplicate-free list, removing the element at a position removes exactly that id |
| `Registry.WithoutKeepsNoDuplicates` | src/main.rs:61-65 | deleting keeps the id list free of duplicates |
| `Registry.App.UpdateState` | src/components/pace_input.rs:68-73 | the store entry of `id` is changed if present; otherwise the store is unchanged; the key set never changes, so the registry invariant is preserved |
| `Registry.App.StateOf` | src/main.rs:109-112 | a read yields the stored record, or the default record when the id is missing |
| `Registry.App.Rows` | src/main.rs:98-108 | one row per live id, in list order; a delete control is offered exactly at positions above 0 |
| `Registry.OfferedDeleteKeepsFirst` | src/main.rs:104-108 | an offered delete (position above 0) never removes the first listed instance |
| `Registry.AddTwice` | src/main.rs:41-58 | start-up plus two adds lists ids 0, 1, 2, with only the last two deletable |
| `CalculatorForm.PaceCalculatorForm.constructor` | src/components/pace_calculator_form.rs:41-45 | the local pace, splits, distance and show-splits start equal to the instance's record (default if missing); the error starts empty; store and form are in sync |
| `CalculatorForm.TotalDuration` | src/components/pace_calculator_form.rs:47-56 | present exactly when pace > 0 and distance > 0; then it is the floor of pace × distance / 1000 seconds; it takes only pace and distance, so splits and show-splits cannot affect it |
| `CalculatorForm.TotalDurationExamples` | src/components/pace_calculator_form.rs:50-55 | 5:00/km over 1000 m is 300 s; 4:30/km over 3000 m is 810 s; absent when either input is 0 |
| `Numerals.Split` | src/components/pace_input.rs:30 | `split(':')` yields one more part than there are separators; no part holds a separator; joining the parts gives the text back |
| `Numerals.SplitCons` | src/components/pace_input.rs:30 | a leading character that is not the separator is joined to the first part of the split of the rest |
| `Numerals.SplitAtSeparator` | src/components/pace_input.rs:30 | splitting at the first separator yields the text before it, then the split of the rest |
| `Numerals.SplitOneColon` | src/components/pace_input.rs:30-31 | text with exactly one `:` splits into exactly two parts, before and after it |
| `PaceInput.ParseDuration` | src/components/pace_input.rs:29-41 | fails with "Invalid format" exactly when the text does not have exactly one `:`; every failure is one of the three messages |
| `PaceInput.ParseDurationOfParts` | src/components/pace_input.rs:30-40 | with one `:`: a non-`u64` minutes part fails with "Invalid minutes" (checked first); otherwise a non-`u64` seconds part fails with "Invalid seconds"; otherwise the result is minutes × 60 + seconds |
| `PaceInput.ParseDurationRoundTrip` | src/components/pace_input.rs:34-40 | any two `u64` numerals joined by `:` parse to minutes × 60 + seconds, with no bound on the seconds |
| `PaceInput.ParsePaddedPace` | src/components/pace_input.rs:34-40 | `04:30` parses to 270 s |
| `PaceInput.ParseLongSeconds` | src/components/pace_input.rs:37-40 | `0:75` parses to 75 s: seconds are not limited to 59 |
| `PaceInput.ParseEmptyMinutes` | src/components/pace_input.rs:34-36 | `:30` fails with "Invalid minutes" |
| `PaceInput.ParseEmptySeconds` | src/components/pace_input.rs:37-39 | `5:` fails with "Invalid seconds" |
| `PaceInput.ParseWrongShape` | src/components/pace_input.rs:30-33 | `5` and `1:2:3` fail with "Invalid format" |
| `PaceInput.Edit` | src/components/pace_input.rs:53-67 | blank text gives pace 0 and an empty error; a parsed duration becomes the pace with an empty error; a failure gives "Pace error: " + reason and keeps the pace; the error is empty exactly when the text is blank or parses; a reported error never changes the pace |
| `PaceInput.HandleInput` | src/components/pace_input.rs:52-74 | the local pace and error slot become `Edit` of the old pace and the text; the error does not depend on the previous error, so the last edit wins; the store entry's pace becomes the local pace if the id is present, no other field or entry changes, and an absent id leaves the store unchanged; store/form sync and the registry invariant are preserved |
| `SplitsInput.Edit` | src/components/splits_input.rs:38-58 | blank text gives interval 0 and an empty error; 0 gives "Splits must be greater than 0"; unparsable text gives "Splits must be a positive number"; in both error cases the interval is kept; a positive value becomes the interval with an empty error; the interval becomes 0 only through blank text or when it was 0 already |
| `SplitsInput.HandleInput` | src/components/splits_input.rs:37-65 | the local interval and error slot become `Edit` of the old interval and the text; the store entry's splits becomes the local value if the id is present, nothing else changes; store/form sync and the registry invariant are preserved |
| `DistanceInput.Edit` | src/components/distance_input.rs:18-38 | the same transition for distance, with "Distance must be greater than 0" and "Distance must be a positive number" |
| `DistanceInput.HandleInput` | src/components/distance_input.rs:17-45 | the local distance and error slot become `Edit` of the old distance and the text; the store write-back, sync and invariant as for the other fields |
| `Numerals.ParseUnsigned` | src/components/splits_input.rs:43 | an accepted text is non-empty and all ASCII digits, except an optional leading `+`; the value never exceeds the type's maximum; a digit string is read as its value when it fits and refused when it does not; a text starting with `+` is read as the digits after it, so a lone `+` is refused and `+5` is 5 |
| `Numerals.TrimStart` | src/components/pace_input.rs:54 | `trim_start` drops a whitespace prefix only, leaving a suffix that is empty or starts with a non-whitespace character |
| `Numerals.TrimEnd` | src/components/pace_input.rs:54 | `trim_end` drops a whitespace suffix only, leaving a prefix that is empty or ends with a non-whitespace character |
| `Numerals.Trim` | src/components/pace_input.rs:54 | `trim`, when not empty, starts and ends with a non-whitespace character |
| `Numerals.TrimIsSlice` | src/components/pace_input.rs:54 | `trim` is the slice of the text starting where `trim_start` starts, with only whitespace before it and only whitespace after it |
| `Numerals.TrimEmptyIffBlank` | src/components/splits_input.rs:39 | `trim().is_empty()` holds exactly when every character is Unicode whitespace (the test at pace_input.rs:54, splits_input.rs:39 and distance_input.rs:19) |
| `Numerals.Decimal` | src/components/splits_list.rs:55 | `{}` of a number is a non-empty digit string without a leading zero that denotes the number |
| `Numerals.Pad2` | src/components/total_duration.rs:16 | `{:02}` is a digit string of at least two digits that denotes the number; exactly two below 100, and the plain numeral from 10 up |
| `Numerals.ParseDecimal` | src/components/splits_input.rs:43 | parsing the rendering of any value that fits the type gives the value back |
| `DurationDisplay.ToClock` | src/components/total_duration.rs:13-15 | seconds < 60 and minutes × 60 + seconds = the total |
| `DurationDisplay.FormatClock` | src/components/total_duration.rs:16 | the text has one `:`, with the minutes zero-padded to at least two digits before it and the seconds likewise after it; at least five characters, exactly five when both parts are below 100 |
| `DurationDisplay.FormatClockInjective` | src/components/total_duration.rs:16 | two clocks with the same text are the same clock |
| `DurationDisplay.Render` | src/components/total_duration.rs:9-18 | the text is the dash exactly when there is no duration; otherwise it splits at its `:` into `total / 60` and `total % 60`, each zero-padded to at least two digits |
| `PaceInput.RenderParsesBack` | src/components/total_duration.rs:13-16 | a displayed total, typed back into the pace field, parses to the same number of seconds |
| `DurationDisplay.RenderExamples` | src/components/total_duration.rs:13-16 | 300 s shows `05:00`, 810 s shows `13:30` |
| `DurationDisplay.RenderLongMinutes` | src/components/total_duration.rs:16 | 6000 s shows `100:00`: minutes may exceed two digits |
| `SplitsList.Elapsed` | src/components/splits_list.rs:46-48 | the elapsed seconds are the floor of pace × marker / 1000, saturated at `u32::MAX` |
| `SplitsList.SplitTable` | src/components/splits_list.rs:36-63 | no rows when show-splits is off or any of pace, distance, interval is 0, nor when the interval exceeds the distance |
| `SplitsList.Entries` | src/components/splits_list.rs:43-60 | the loop over `(splits..=distance).step_by(splits)` builds exactly `SplitTable` |
| `SplitsList.SplitMarkers` | src/components/splits_list.rs:45 | there are distance / interval rows; row k's marker is (k+1) × interval, positive and at most the distance |
| `SplitsList.SplitMarkersIncrease` | src/components/splits_list.rs:45 | the markers strictly increase down the table |
| `SplitsList.SplitMarkersComplete` | src/components/splits_list.rs:45 | every positive multiple of the interval up to the distance has a row |
| `SplitsList.SplitTimes` | src/components/splits_list.rs:46-50 | each row has seconds < 60 and minutes × 60 + seconds = its elapsed time; the times never decrease down the table |
| `SplitsList.SplitTableExample` | src/components/splits_list.rs:43-59 | 270 s/km, 3000 m, 1000 m splits gives 1000→04:30, 2000→09:00, 3000→13:30; no rows when hidden or when the interval exceeds the distance |
| `SplitsList.RenderEntry` | src/components/splits_list.rs:55 | a row's text is the marker's numeral (digits denoting the marker, no leading zero), then `m: `, then text splitting at its `:` into the zero-padded minutes and seconds |
| `SplitsList.RenderEntryExample` | src/components/splits_list.rs:55 | the row for 1000 m at 04:30 reads `1000m: 04:30` |
| `Session.TypeAllThree` | src/components/pace_calculator_form.rs:81-134 | typing `04:30`, `3000`, `1000` leaves local and stored record (270, 1000, 3000, shown) and an empty error; the form, reading its local fields, then shows total `13:30` and rows at 1000, 2000 and 3000 m reading 04:30, 09:00 and 13:30, the first as `1000m: 04:30` |
| `Session.ShownForAllThree` | src/components/pace_calculator_form.rs:102-134 | that instance shows total `13:30` and rows 04:30, 09:00, 13:30 |
| `Session.ZeroDistance` | src/components/distance_input.rs:25-27 | distance `0` reports "Distance must be greater than 0" and leaves local and stored records at the default |
| `Session.EmptySeconds` | src/components/pace_input.rs:63-65 | pace `5:` reports "Pace error: " + "Invalid seconds" and leaves local and stored records at the default |

## Left out

- Rendering (`view!` markup, styles, colours, the grid layout variant, the page
  title, mounting) and the error-message component: presentation only.
- Leptos signals, memos and reactivity. Local values and the store are plain
  mutable state. Handlers run one at a time, and a `set` is seen by the next
  `get` in the same handler.
- Floating point. Total and split times are the integer floor of
  pace × metres / 1000. Float rounding near whole seconds is not modelled.
  `Duration::from_secs_f64` panics on out-of-range values; that is not modelled.
- Registry.App.AddForm: the id counter is an unbounded natural. The `usize`
  overflow of `next_id += 1` after 2^32 adds is not modelled (it wraps in a
  release build and panics in a debug build). So "an id is never reused" holds
  only below that bound.
- PaceInput.ParseDuration: `minutes * 60 + seconds` is computed on unbounded
  naturals; the `u64` overflow of very large inputs is not modelled.
- The show-splits toggle, the label input and the delete button:
  `split_toggle.rs`, `delete_button.rs` and `LabelInput` are not part of this
  model. The form reads a `label` field that the record in `form_state.rs` does
  not declare. The record is modelled as declared, without a label.
