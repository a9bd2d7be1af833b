# AutoSplitTextControl in Dafny

A model of the `AutoSplitTextControl` form control, without its DOM. The control shows two
text fields. Field 1 (the primary text) has a configurable limit. Field 2 (the overflow
text) has a fixed ceiling of 4000 characters. When an edit brings field 1 to its limit or
past it, the characters past the limit move to the front of field 2. Field 2 is then cut
to 4000 characters. The control reports both stored values back to the host. It can also
report field 2 under a third key whose name the host configures.

- `js_strings.dfy`, module `JsStrings`: the JavaScript string pieces the control uses.
  These are an optional host value, `substring(0, n)` (`Take`), `substring(n)` (`Drop`)
  and `raw || ""` (`OrEmpty`).
- `auto_split_text.dfy`, module `AutoSplitText`:
  - the limit resolution `ResolveMaxLength`;
  - the split rule of the input handler, `Split`;
  - a `Snapshot` of the control's state, with one pure step function per lifecycle call
    (`InitState`, `InputStep`, `RefreshStep`) and the lemmas about them;
  - sessions: a sequence of `Event`s (a user edit, an input event, a host refresh) run
    from a state by `Run`, with lemmas that hold after any session;
  - the class `AutoSplitTextControl`. Its fields are the textarea texts, the stored values,
    the limit, the "limit reached" marker, a count of `notifyOutputChanged` calls and the
    target name. Its constructor and methods are specified by the step functions, as in
    `State() == InputStep(old(State()))`.

The input handler is attached to both textareas, so `OnInput` is one handler. It reads
whatever the two texts are when it runs. A user's typing is modelled as a client assigning
`field1Text` or `field2Text` directly, because the browser sets a textarea's value before
the handler runs. The method `Scenarios` drives the class this way through an overflow, a
repeated input at the limit, an unchanged refresh and the named output.

Three facts about the code that the model reproduces:

- Re-running the split on a settled pair does take the overflow branch again, because the
  test is `>=` (index.ts:99). A field 1 left at exactly its limit overflows with an empty
  excess, and the marker stays set. `InputStepSettledStillOverflows` proves this.
  `InputStepFixedPoint` proves that the texts and stored values are still unchanged.
- Edits of the overflow field run the split too. The same handler is attached to both
  textareas (index.ts:45, index.ts:74).
- The stored field 1 can exceed the limit. After the limit shrinks, `updateView` cuts the
  displayed field 1 but not the stored `_field1Value` (index.ts:124-136). `RefreshLeavesStaleValue` gives an input where the stored value ends
  up longer than the new limit and differs from the displayed text. The invariant kept by
  every step, `Invariant`, bounds the stored values by 4000 only.

## Model

| member | source | states |
|---|---|---|
| `JsStrings.Take` | AutoSplitText/AutoSplitTextControl/index.ts:43 | `substring(0, n)` is a prefix of the string of length `min(n, length of s)` |
| `JsStrings.Drop` | AutoSplitText/AutoSplitTextControl/index.ts:101 | `substring(n)` is what remains after `substring(0, n)`: the two put together give the string back |
| `JsStrings.OrEmpty` | AutoSplitText/AutoSplitTextControl/index.ts:43 | defaulting a host string to "" gives "" exactly for a missing or empty host value, and otherwise the host value itself |
| `AutoSplitText.ResolveMaxLength` | AutoSplitText/AutoSplitTextControl/index.ts:22-25 | the limit is 4000 for a missing, NaN, zero or negative value and `min(raw, 4000)` otherwise, so it always lies in 1..4000 |
| `AutoSplitText.ResolveMaxLengthKeeps` | AutoSplitText/AutoSplitTextControl/index.ts:119-122 | the configured value is used as it is exactly when it lies in 1..4000 |
| `AutoSplitText.Split` | AutoSplitText/AutoSplitTextControl/index.ts:99-107 | the overflow branch is taken exactly when field 1 has at least `max` characters; field 1 ends up a prefix of itself within the limit; after an overflow field 2 is within 4000; otherwise both texts are untouched |
| `AutoSplitText.SplitMovesTail` | AutoSplitText/AutoSplitTextControl/index.ts:101-103 | field 1 becomes its first `max` characters in both branches; on overflow field 2 becomes the excess followed by the old field 2, cut to 4000 |
| `AutoSplitText.SplitConserves` | AutoSplitText/AutoSplitTextControl/index.ts:101-103 | new field 1 followed by new field 2 is a prefix of the old pair joined, and equal to it exactly when there was no overflow or the excess plus the old field 2 fit in 4000 |
| `AutoSplitText.SplitFixedPoint` | AutoSplitText/AutoSplitTextControl/index.ts:99-103 | splitting the result again gives the same texts and the same branch |
| `AutoSplitText.InitStateSeeds` | AutoSplitText/AutoSplitTextControl/index.ts:43-93 | after `init` field 1 is the host value (or "") cut to the resolved limit and field 2 its host value (or "") cut to 4000; the stored values equal the displayed ones; the marker is clear and nothing was notified |
| `AutoSplitText.InputStepBounds` | AutoSplitText/AutoSplitTextControl/index.ts:109-113 | after `onInput` field 1, displayed and stored, is within the limit; the stored field 2 is within 4000, and so is the displayed one when it overflowed or already fitted; the stored field 1 equals the displayed one; the host is notified exactly once |
| `AutoSplitText.InputStepMarker` | AutoSplitText/AutoSplitTextControl/index.ts:99-107 | the "limit reached" marker is set exactly when field 1 has at least `max` characters; when it is cleared both texts are unchanged |
| `AutoSplitText.InputStepConserves` | AutoSplitText/AutoSplitTextControl/index.ts:101-110 | the stored values after `onInput` joined are a prefix of the old texts joined, equal to them exactly when the excess plus the old field 2 fit in 4000, and then the same multiset of characters |
| `AutoSplitText.InputStepFixedPoint` | AutoSplitText/AutoSplitTextControl/index.ts:96-113 | a second `onInput` on the result of the first leaves texts, stored values and marker as they are and only notifies again |
| `AutoSplitText.InputStepSettledStillOverflows` | AutoSplitText/AutoSplitTextControl/index.ts:99 | after an overflow field 1 holds exactly `max` characters and the next input again takes the overflow branch |
| `AutoSplitText.InputStepKeepsInvariant` | AutoSplitText/AutoSplitTextControl/index.ts:109-110 | `onInput` keeps the limit in 1..4000 and both stored values within 4000 |
| `AutoSplitText.RefreshHostWins` | AutoSplitText/AutoSplitTextControl/index.ts:124-140 | `updateView` resolves the limit again; a host value that differs from the stored one replaces displayed and stored value, cut to the field's limit; an equal one keeps the stored value, and field 1's text is only cut to a changed limit; marker and notification count never change; the invariant is kept |
| `AutoSplitText.RefreshUnchanged` | AutoSplitText/AutoSplitTextControl/index.ts:124 | a refresh with an unchanged limit and host values equal to the stored ones changes nothing |
| `AutoSplitText.RefreshIdempotent` | AutoSplitText/AutoSplitTextControl/index.ts:133-140 | a second refresh with the same host values changes nothing more |
| `AutoSplitText.RefreshLeavesStaleValue` | AutoSplitText/AutoSplitTextControl/index.ts:128 | after the limit shrinks from 10 to 3 and the host sends back the stored "abcdef", the displayed field 1 is "abc" while the stored value stays "abcdef", longer than the limit |
| `AutoSplitText.RunKeepsInvariant` | AutoSplitText/AutoSplitTextControl/index.ts:96-145 | over any session of user edits, input events and host refreshes the limit stays in 1..4000 and the stored values within 4000, and the host is notified once per input event and for nothing else |
| `AutoSplitText.RunWithoutRefreshKeepsValueInLimit` | AutoSplitText/AutoSplitTextControl/index.ts:109-136 | in a session without host refreshes the limit does not change and the stored field 1 stays within it, so a stored value longer than the limit can only come from `updateView` |
| `AutoSplitText.AutoSplitTextControl.Init` | AutoSplitText/AutoSplitTextControl/index.ts:16-94 | the constructor sets the state to `InitState` of the host values, with stored values equal to the displayed texts, and records the target name |
| `AutoSplitText.AutoSplitTextControl.OnInput` | AutoSplitText/AutoSplitTextControl/index.ts:96-116 | the new state is `InputStep` of the old one: marker iff the old field 1 has at least `max` characters, field 1 within the limit and equal to its stored value, stored field 2 within 4000, one more notification |
| `AutoSplitText.AutoSplitTextControl.UpdateView` | AutoSplitText/AutoSplitTextControl/index.ts:118-145 | the new state is `RefreshStep` of the old one and the host values; no notification; marker and target name unchanged |
| `AutoSplitText.AutoSplitTextControl.GetOutputs` | AutoSplitText/AutoSplitTextControl/index.ts:147-158 | the keys are `field1`, `field2` and, only for a non-empty target name, that name; `field2` and the target name map to the stored field 2, `field1` to the stored field 1 unless the target name is `field1` |

## Left out

- DOM construction in `init` is not modelled: wrappers, labels, ids, class names,
  placeholders and the `maxLength` attribute of the textareas. `AutoSplitTextControl.Init`
  keeps only the seeding of values.
- The `"length/max"` counters are not modelled. They are display only.
- `focus()` on field 2 in the overflow branch is not modelled. It is a UI side effect that
  happens exactly when `limitReached` is set.
- `console.log` diagnostics are left out. They are I/O.
- `destroy` is left out. It calls `removeEventListener` with the unbound method
  (index.ts:161-162), which matches neither listener registered with `bind` (index.ts:45,
  index.ts:74), so it removes nothing; no modelled state depends on it.
- The host framework types are not modelled: the context, `IInputs`/`IOutputs` and the
  `notifyOutputChanged` callback. The callback is a counter. Host values are parameters,
  with `None` for `null`/`undefined`.
- The browser's own enforcement of a textarea's `maxLength` during typing is not modelled.
  Typed texts are arbitrary strings.
- A fractional or floating-point `maxLength` is not modelled. The raw limit is an
  `Option<int>`, with NaN as `None`.
- JavaScript string lengths count UTF-16 code units. The model counts the elements of a
  `seq<char>`.
- `getOutputs` reads the target name from the context captured by `init`, because the code
  never replaces `_context`. If the host mutates that same context object in place, the
  model does not see the new name.
- `AutoSplitText.AutoSplitTextControl.GetOutputs`: does not model the target name
  `"__proto__"`. In JavaScript that assignment (index.ts:154) goes to the prototype setter
  and adds no key, while the model adds a third key.
- A textarea's `value` getter turns CRLF and CR line breaks into LF. The model stores the
  host text cut to the limit as it is (index.ts:92-93, 135, 139). For a host value holding
  `\r`, the source's stored value differs from the host value, so each later `updateView`
  sees a divergence and overwrites again; the model does not capture this.
