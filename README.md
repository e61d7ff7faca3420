# Confirm Dirty Form, modelled in Dafny

This project models the jQuery plugin in `js/confirmDirtyForm.js`. The plugin
decides whether a form is "dirty" (some control no longer holds the value it
had when the plugin attached) and, if so, gives the page-unload handler a
warning text for the browser's confirmation prompt.

The model tracks one form, given as a sequence of abstract controls:

- `wrappers.dfy` (`Wrappers`): the `Option` returned by the unload handler.
- `loose_equality.dfy` (`LooseEquality`): an effective value is either a string
  or the sentinel `false` (`Value = NoValue | Str(s)`). `LooselyDiffers` is
  JavaScript's `!=` between two such values. Two strings compare as strings.
  `false` equals `false`. `false` and a string compare as numbers, so they are
  equal exactly when the string is `ZeroLike`, that is, when ECMAScript's
  string-to-number conversion gives 0. `ZeroLike` reads the string one character at a
  time through the grammar of numeric strings (`Phase`, `Step`, `Accepts`).
- `fields.dfy` (`Fields`): a control is an `Input` (type, value, checked), a
  `Select` (option values, selected index) or a `TextArea`. `ValueByType` is
  `getValueByType`.
- `dirtiness.dfy` (`Dirtiness`): pure specifications. These are the stored
  baselines (`Baselines`), one control's dirtiness (`ElementDirty`, i.e.
  `isElementDirty`), the first dirty control in document order (`FirstDirty`),
  and the answer `isFormDirty` gives (`FormDirtyAnswer`).
- `tracker.dfy` (`ConfirmDirtyForm`): the class `Tracker` holds the controls,
  the baselines and the shared dirty flag. Its constructor is the attach loop.
  `OnEvent` is the keyup/change handler, `IsFormDirty` is the scan with its
  early exit, and `BeforeUnload` is the unload handler. `SetValue`,
  `SetChecked` and `SelectIndex` stand for what the user does to the
  controls. The client methods at the end replay concrete sessions.

The baselines are a `const` of `Tracker`, so nothing after attaching can
change them (`js/confirmDirtyForm.js:31` is their only writer). Every method
names the one field it may change: `fields` for the user's edits, `flag`
for the handlers.

## Behaviour worth knowing

These are facts about the code, and the model follows it in each case.

- The dirty flag is not a latch. The keyup/change handler assigns the
  touched control's dirtiness to the flag, so it writes `true` when that
  control is dirty and `false` when it is clean (line 36). The scan is the
  second writer, and line 128 is the only write of a constant `true`.
  Editing a control and reverting it, with an event each time, therefore
  leaves no warning (`EditThenRevertScenario`). The flag is stale only when a
  control changes without an event after the flag was set
  (`StaleFlagScenario`). The comment at line 114 reads the flag as the last
  touched control's dirtiness. After the scan has set it at line 128, it
  records instead that a dirty control was found. `Tracker.CacheSound`
  holds after attaching and after every event, and the scan preserves it.
  While it holds, the answer is exact (`FormDirtyAnswer`,
  `Tracker.IsFormDirty`).
- Toggling a radio button or checkbox is not always dirty. Line 101 uses loose
  `!=`, and `false != "0"` and `false != ""` are both false. So checking a box
  whose value is `"0"` or empty, or unchecking one, goes unnoticed
  (`BoxDirtyIff`, `CheckingZeroValuedBoxIsClean`, `CheckedZeroBoxScenario`).
- An unrecognised control or a select list with nothing selected does not
  make `getValueByType` return `false`, although the comment at line 53 says
  it returns false when the element's value is invalid. In the code, `elObj` is then `undefined` and
  reading `.value` throws (lines 81 and 88). The first case cannot happen,
  because the selector on lines 12 and 29 passes only `input`, `select` and
  `textarea`. The second case is excluded by the precondition `WellFormed`.

## Model

| member | source | states |
|---|---|---|
| `LooseEquality.LooselyDiffers` | js/confirmDirtyForm.js:101 | JavaScript `!=` between string-or-`false` values: two strings differ exactly when they are unequal; `false` vs a string differs exactly when the string does not convert to 0; loosely different values are always really different |
| `LooseEquality.ZeroLike` | js/confirmDirtyForm.js:101 | the strings that ECMAScript's string-to-number conversion maps to 0, so `false == s` holds; every blank string (empty or white space only) is one of them, and no string whose first character is neither white space, a sign, `0` nor a point is |
| `LooseEquality.EdgeSpaceIgnored` | js/confirmDirtyForm.js:101 | white space added at the start or the end of a string never changes whether it converts to 0, as the conversion trims both ends |
| `LooseEquality.LooselyDiffersSymmetric` | js/confirmDirtyForm.js:101 | the comparison of current and stored value gives the same answer in either order |
| `LooseEquality.LooselyDiffersIrreflexive` | js/confirmDirtyForm.js:101 | a value never differs loosely from itself, so an untouched control is never dirty |
| `LooseEquality.LooseEqualityIsCoarser` | js/confirmDirtyForm.js:101 | distinct values count as loosely equal exactly when one is the sentinel and the other a zero-like string |
| `LooseEquality.SentinelEqualsEmptyAndZero` | js/confirmDirtyForm.js:101 | `false != ""` and `false != "0"` are both false |
| `LooseEquality.ZeroLikeEmptyAndZero` | js/confirmDirtyForm.js:101 | `""` and `"0"` convert to the number 0 |
| `LooseEquality.ZeroLikeSignedFraction` | js/confirmDirtyForm.js:101 | white space, a sign and a fraction still convert to 0 (`" -0.0 "`) |
| `LooseEquality.ZeroLikeHex` | js/confirmDirtyForm.js:101 | a prefixed zero literal (`"0x00"`) converts to 0 |
| `LooseEquality.NotZeroLikeWord` | js/confirmDirtyForm.js:101 | a word (`"abc"`) does not convert to 0 |
| `LooseEquality.NotZeroLikeOne` | js/confirmDirtyForm.js:101 | `"1"` does not convert to 0 |
| `LooseEquality.NotZeroLikePoint` | js/confirmDirtyForm.js:101 | a lone decimal point does not convert to 0 |
| `LooseEquality.NotZeroLikeOn` | js/confirmDirtyForm.js:101 | the default checkbox value `"on"` does not convert to 0 |
| `Fields.ValueByType` | js/confirmDirtyForm.js:58-91 | the sentinel comes exactly from an unchecked radio button or checkbox; otherwise the value is the control's own value, or the value of the selected option for a select list |
| `Dirtiness.ElementDirty` | js/confirmDirtyForm.js:99-102 | isElementDirty: the control's effective value loosely differs from its stored baseline; a control still holding its baseline is clean |
| `Dirtiness.Baselines` | js/confirmDirtyForm.js:29-32 | one baseline per control, in order, each that control's effective value |
| `Dirtiness.FirstDirtyFrom` | js/confirmDirtyForm.js:122-131 | the scan from a position finds a dirty control with no dirty control before it, or reports none when every remaining control is clean |
| `Dirtiness.FirstDirty` | js/confirmDirtyForm.js:121-134 | a first dirty control exists exactly when some control is dirty, and it is the earliest in document order |
| `Dirtiness.FormDirtyAnswer` | js/confirmDirtyForm.js:110-135 | isFormDirty's answer is true exactly when the flag is set or a first dirty control exists |
| `Dirtiness.AttachedFormIsClean` | js/confirmDirtyForm.js:29-32 | right after attaching, every control equals its baseline and no control is dirty |
| `Dirtiness.TextDirtyIff` | js/confirmDirtyForm.js:74-85 | a text-like input or textarea is dirty exactly when its text differs from the text at attach time |
| `Dirtiness.SelectDirtyIff` | js/confirmDirtyForm.js:79-82 | a select list is dirty exactly when the selected option's value differs from the one selected at attach time |
| `Dirtiness.BoxDirtyIff` | js/confirmDirtyForm.js:69-73 | radio/checkbox dirtiness in all four checked/unchecked combinations; a state change is dirty only when the checked side's value is not zero-like |
| `Dirtiness.CheckingZeroValuedBoxIsClean` | js/confirmDirtyForm.js:101 | checking a box whose value is `"0"` or `""` leaves it clean |
| `Dirtiness.TogglingOrdinaryBoxIsDirty` | js/confirmDirtyForm.js:72 | toggling a box with value `"1"` either way makes it dirty |
| `ConfirmDirtyForm.Tracker.constructor` | js/confirmDirtyForm.js:29-32 | the attach loop stores every control's effective value as its baseline; the flag starts false (line 10) |
| `ConfirmDirtyForm.Tracker.OnEvent` | js/confirmDirtyForm.js:35-37 | the flag becomes exactly the touched control's dirtiness, true or false; nothing else changes |
| `ConfirmDirtyForm.Tracker.IsFormDirty` | js/confirmDirtyForm.js:110-135 | with the flag set: true, nothing scanned, nothing changed; otherwise true exactly when some control is dirty, the scan stops just after the first dirty control, and the flag is left equal to the answer; while the flag claims no more than the form shows, the answer is exactly whether some control is dirty |
| `ConfirmDirtyForm.Tracker.BeforeUnload` | js/confirmDirtyForm.js:40-45 | the warning text exactly when isFormDirty answers true, nothing otherwise |
| `ConfirmDirtyForm.CheckTwice` | js/confirmDirtyForm.js:110-135 | two checks with no edit or event in between give the same answer |
| `ConfirmDirtyForm.AttachThenCheck` | js/confirmDirtyForm.js:29-32 | for every form, a check right after attaching answers false |
| `ConfirmDirtyForm.UntouchedTextScenario` | js/confirmDirtyForm.js:40-45 | an untouched text input gives no warning |
| `ConfirmDirtyForm.EditedTextScenario` | js/confirmDirtyForm.js:35-45 | editing a text input, then its event, gives the warning |
| `ConfirmDirtyForm.CheckedBoxScenario` | js/confirmDirtyForm.js:69-73 | checking an unchecked `"on"` checkbox gives the warning |
| `ConfirmDirtyForm.CheckedZeroBoxScenario` | js/confirmDirtyForm.js:101 | checking an unchecked `"0"` checkbox gives no warning |
| `ConfirmDirtyForm.ReselectScenario` | js/confirmDirtyForm.js:79-82 | selecting the already selected option again gives no warning |
| `ConfirmDirtyForm.EditThenRevertScenario` | js/confirmDirtyForm.js:35-37 | edit, event, revert, event: the flag is cleared and there is no warning |
| `ConfirmDirtyForm.StaleFlagScenario` | js/confirmDirtyForm.js:115-118 | once a check has set the flag, a revert without an event still gives the warning though no control is dirty |

## Left out

- jQuery and the DOM: `$.fn` plumbing, `find`, `$.data` storage, `.on` registration and `each` chaining (lines 21-26). The form is a sequence of abstract controls, fixed at attach time. Controls added or removed later are not modelled.
- How the browser shows the confirmation prompt, which is outside the plugin. Only the returned `Option<string>` is modelled.
- Several forms on one page. They share the global flag (lines 9-14) and one `elForm` variable in every unload closure (lines 23, 26, 41). The model tracks a single form with its own flag.
- A select list with `selectedIndex == -1`, where reading `options[-1].value` throws (lines 81, 88). `WellFormed` makes a valid index a precondition.
- The unused `formEvtActions` setting (line 13) and the difference between keyup and change. Both run the same handler, so `OnEvent` covers them.
- The browser's radio-group behaviour, where checking one radio button unchecks the others. `SetChecked` changes one control at a time, and a group change is a sequence of such calls.
- `ZeroLike` reads a string one character at a time through ECMAScript's grammar of numeric strings (StringNumericLiteral), keeping only the literals of value zero. It leaves out non-zero decimal literals that underflow to 0 in floating point (for example `"1e-400"`), because floating point is not modelled.
