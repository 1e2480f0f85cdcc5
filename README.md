# Medication registration form — Dafny model

This project models the client-side core of a small medication-schedule
registration form. It covers two parts:

- **The form component** (`MedicationForm`). It keeps three state slots: the
  record being edited (`name`, `scheduleTime`, `intervalHours`), a buffer for
  the time being typed, and a success message. Its event handlers replace
  these slots one event at a time. Adding a time appends it and sorts the
  list. Removing a time filters out every equal entry. Submitting hands the
  record to the submission hook and resets the record on success.
- **The submission hook** (`useMedication`). It keeps `isLoading` and `error`.
  `createMedication` sets loading and clears the error, calls the API, puts a
  message into `error` on failure and re-raises, and clears loading in
  `finally`.

Layout, one module per concern:

| file | module | contents |
|---|---|---|
| `wrappers.dfy` | `Wrappers` | `Option`, standing for `undefined` / `null` |
| `string_order.dfy` | `StringOrder` | `LexLe`, the order `.sort()` uses on strings, proved a total order |
| `schedule_times.dfy` | `ScheduleTimes` | `Sort` (sorted permutation) and `RemoveAll` (the `.filter`) with their characterising lemmas |
| `medication_api.dfy` | `MedicationApi` | the `MedicationData` record |
| `use_medication.dfy` | `UseMedication` | class `MedicationHook`: `Start`, `Finish`, `CreateMedication` |
| `medication_form.dfy` | `Form` | class `MedicationForm`: the handlers, plus two verified client scenarios |

The class `MedicationForm` keeps the invariant `Valid()`: the schedule-time
list is sorted. The constructor establishes it and every handler preserves it.
The handlers' contracts state the whole new state in terms of the old one.
The list functions behind them are pinned down by lemmas:

- `Sort` is the only sorted arrangement of its input (`SortedPermutationUnique`).
  So any correct sorting algorithm, including the browser's, gives the same list.
- `RemoveAll` is the only order-keeping sublist with the right entries
  (`RemoveAllUnique`).

The API request is a parameter `api: MedicationData -> ApiOutcome` of
`CreateMedication` and `HandleSubmit`. It maps the record sent to the way the
call settles: a resolved value, a thrown `Error` with a message, or a thrown
value that is not an `Error`. Contracts can therefore name the record that was
sent, `api(old(formData))`.

Behaviour of `src/MedicationForm.tsx` worth noting, all of it modelled as written:

- There is no "time" / "interval" mode switch. `handleSubmit` (lines 50-61)
  sends `scheduleTime` and `intervalHours` as they are, never clearing or
  zeroing either.
- `intervalHours` is stored as the raw text of its input, not as a parsed
  integer. It is `undefined` when the input is empty (line 21).
- Clearing the name input stores `undefined`, not `""`, because every input
  other than the time input goes through `value || undefined` (line 21).
- Removing a time deletes every equal entry, not just one (line 46).
- The record and the buffer are not reset together. A successful submit
  resets the record only (line 56), and it leaves the time buffer as it was.

`Form.ScheduleScenario` and `Form.SubmitScenario` are worked client examples.
The lemmas they use, `Form.AddEarlierTime`, `Form.AddMiddleTime` and
`Form.RemoveMiddleTime`, are fixed-shape examples of one, two or three times.
They are not general properties. The general facts they instantiate are
`ScheduleTimes.SortAfterAppend` and the contract of `ScheduleTimes.RemoveAll`.

## Model

| member | source | states |
|---|---|---|
| `StringOrder.LexLe` | src/MedicationForm.tsx:30-33 | the comparison `.sort()` uses without a comparator holds exactly when the first string is a prefix of the second or is smaller at the first index where they differ |
| `StringOrder.LexLeReflexive` | src/MedicationForm.tsx:30-33 | every time string sorts no later than itself under the order `.sort()` uses |
| `StringOrder.LexLeTotal` | src/MedicationForm.tsx:30-33 | any two strings are comparable: one sorts no later than the other |
| `StringOrder.LexLeAntisymmetric` | src/MedicationForm.tsx:30-33 | two strings that each sort no later than the other are equal |
| `StringOrder.LexLeTransitive` | src/MedicationForm.tsx:30-33 | the sort order is transitive |
| `StringOrder.PrefixFirst` | src/MedicationForm.tsx:30-33 | a prefix sorts no later than any extension of it, and strictly before a longer one, as in JavaScript's default string comparison |
| `ScheduleTimes.Insert` | src/MedicationForm.tsx:30-33 | inserting a time adds exactly one entry (same multiset plus the time) and keeps a sorted list sorted |
| `ScheduleTimes.Sort` | src/MedicationForm.tsx:30-33 | the sorted list is ascending and a permutation of the input, with duplicates kept and the length unchanged |
| `ScheduleTimes.SortedPermutationUnique` | src/MedicationForm.tsx:30-33 | two sorted lists with the same entries are equal, so the result of sorting does not depend on the algorithm |
| `ScheduleTimes.SortIgnoresOrder` | src/MedicationForm.tsx:30-33 | the sorted list depends only on which times are present, not on the order they were entered in |
| `ScheduleTimes.SortOfSorted` | src/MedicationForm.tsx:30-33 | sorting an already sorted list leaves it unchanged |
| `ScheduleTimes.SortAfterAppend` | src/MedicationForm.tsx:30-33 | appending to a sorted list and sorting is the same as inserting the new time in place |
| `ScheduleTimes.RemoveAll` | src/MedicationForm.tsx:46 | filtering leaves no entry equal to the removed time, keeps every other entry as often as before, and keeps the original order |
| `ScheduleTimes.SubsequenceKeepsSorted` | src/MedicationForm.tsx:46 | dropping entries from a sorted list, keeping the order, leaves it sorted |
| `ScheduleTimes.RemoveAllUnique` | src/MedicationForm.tsx:46 | any order-keeping sublist that has every entry except the removed time, as often as the original, is the filter's result |
| `ScheduleTimes.RemoveAllKeepsSorted` | src/MedicationForm.tsx:43-47 | removing a time from a sorted list leaves it sorted |
| `UseMedication.ErrorMessage` | src/hooks/useMedication.tsx:16-17 | a thrown `Error` contributes its own `message`; any other thrown value gives the fixed, non-empty fallback text |
| `UseMedication.MedicationHook.constructor` | src/hooks/useMedication.tsx:5-6 | the hook starts with `isLoading` false and no error |
| `UseMedication.MedicationHook.Start` | src/hooks/useMedication.tsx:9-10 | entering the call sets `isLoading` and clears `error` before the API is consulted |
| `UseMedication.MedicationHook.Finish` | src/hooks/useMedication.tsx:12-22 | a resolved call returns its value unchanged and leaves `error` alone; a rejected call sets `error` to the `Error`'s message or to the fixed fallback text and re-raises the same thrown value; `isLoading` is false on both paths |
| `UseMedication.MedicationHook.CreateMedication` | src/hooks/useMedication.tsx:8-23 | on success the API's value is returned and `error` is cleared; on failure the thrown value is re-raised and `error` holds its message; `isLoading` always ends false |
| `Form.OrUndefined` | src/MedicationForm.tsx:21 | `value \|\| undefined` gives `undefined` exactly for the empty text and otherwise keeps the text unchanged |
| `Form.Displayed` | src/MedicationForm.tsx:147 | `field \|\| ""` shows an unset field as the empty text and a set, non-empty field as its own text |
| `Form.DisplayedOrUndefined` | src/MedicationForm.tsx:21 | storing an input's text and showing it again gives back exactly the text typed |
| `Form.OrUndefinedDisplayed` | src/MedicationForm.tsx:147 | showing a stored field and storing the shown text again gives back the field, unless the field held `""` |
| `Form.MedicationForm.constructor` | src/MedicationForm.tsx:6-14 | the initial state is name `""`, no times, no interval, an empty buffer and no success message, with a fresh hook that is not loading and has no error |
| `Form.MedicationForm.HandleChange` | src/MedicationForm.tsx:16-26 | the time input changes only the buffer; the name or interval input sets exactly its own field to the text, or to `undefined` when empty; nothing else changes |
| `Form.MedicationForm.HandleAddScheduleTime` | src/MedicationForm.tsx:28-41 | with an empty buffer nothing changes; otherwise the list becomes sorted, gains exactly the buffered time with duplicates kept, the buffer becomes `""`, and name and interval are unchanged |
| `Form.MedicationForm.HandleRemoveTime` | src/MedicationForm.tsx:43-48 | every entry equal to the time is deleted, all others are kept in order, a sorted list stays sorted, and name, interval, buffer and message are unchanged |
| `Form.MedicationForm.HandleSubmit` | src/MedicationForm.tsx:50-61 | the current record is sent; on success the record resets to `{"", [], undefined}` and the message becomes the result; on failure the record and message are unchanged and the hook's `error` holds the reason; the buffer is never touched and loading ends false |
| `Form.MedicationForm.DismissSuccess` | src/MedicationForm.tsx:57 | the auto-dismiss clears the success message and changes nothing else |

## Left out

- The HTTP request in `src/api/medicationApi.ts` is not part of this model.
  The JSON encoding, the `fetch` POST and the base URL from the environment are
  I/O. The hook takes the call as a function from the record sent to the
  outcome. No status-code check happens, so any parsed body counts as a
  resolved value.
- The response body is arbitrary JSON in the source. It is modelled as a
  string, the text shown as the success message.
- The 3-second `setTimeout` is not modelled as real time. Its callback is the
  separate event `DismissSuccess`. A stale dismissal after a later submit is
  just that event arriving at any time.
- `e.preventDefault()` (`src/MedicationForm.tsx:51`) is a browser effect. The
  model assumes the page stays loaded, so the state after a submit is what
  the handler leaves.
- `console.error` logging on a failed submit is left out. It has no effect on
  state.
- React's asynchronous state updates are left out. Each handler is atomic and
  sees the latest state. This also covers `src/MedicationForm.tsx:31` reading `formData` where
  `src/MedicationForm.tsx:35` reads `prev`: in a sequential model the two are the same.
- Overlapping submissions are left out, since `async`/`await` interleaving is not
  modelled. `Start` and `Finish` are separate methods, so the in-flight state
  (`isLoading` true, no error) can be stated, but `CreateMedication` runs them
  back to back.
- The JSX rendering, styling and the native `required`, `min`/`max` and
  `disabled` constraints are browser behaviour, not handler logic, and are
  left out.
- `handleChange` is modelled only for the three inputs the form renders
  (`name`, `scheduleTime`, `intervalHours`). An event from an input with some
  other `name` would add a new property to the record, and that case is left out.
- `StringOrder.LexLe` compares Dafny characters, which are Unicode scalar
  values. JavaScript compares UTF-16 code units. The two orders agree on all
  characters of the Basic Multilingual Plane, which includes every `HH:MM`
  time. They can differ for strings with characters outside it.
