# Parameter changes editor — a Dafny model

This project models the controller of Oppia's `paramChangesEditor` directive.
An exploration author uses it to edit an ordered list of *parameter changes*.
Each entry is a record `{name, generator_id, customization_args}`, and the
generator is either a `Copier` (copies a value) or a `RandomSelector` (picks
one of a list of values). The editor works on two services, and each keeps a
working ("displayed") value beside a committed snapshot (its memento):

- the parameter changes service, which holds the list;
- the exploration parameter specs service, which maps each parameter name to
  its spec `{obj_type}`.

The editor raises warnings through the alerts service.

What is modelled:

- opening the editor, which is gated by editability and seeds an empty list
  with one default entry;
- adding an entry, which registers its name in the specs and rebuilds the
  sorted name choices;
- resetting an entry's arguments when its generator changes;
- the five ordered validation checks and their exact messages;
- saving: validate, restore the specs from their snapshot, register every
  entry's missing name with the default spec, commit both services, close,
  call the post-save hook;
- deleting an entry, including an out-of-range index, which warns but still
  runs `splice`;
- the name registration done after a drag;
- cancelling;
- the page-wide save request;
- the two human-readable renderers.

Files:

- `js_builtins.dfy` (module `JsBuiltins`): the JavaScript built-ins the
  controller relies on. These are:
  - the string order of `Array.prototype.sort()` and `Object.keys(o).sort()`;
  - integer to decimal text;
  - the own properties of an array (`hasOwnProperty`);
  - `splice(index, 1)`.
- `param_changes.dfy` (module `ParamChanges`): the value types, the defaults,
  the renderers, validation as functions, and the name registration as a
  function. It also holds the lemmas about them.
- `param_changes_editor.dfy` (module `ParamChangesEditor`): the stateful
  part. It has:
  - `Store<T>` for the two memento services;
  - `AlertsLog` for the alerts service;
  - the class `ParamChangesEditor`, whose fields are the scope state
    (`isOpen`, `warningText`, `paramNameChoices`) and whose methods are the
    handlers, each proved against the functions of `ParamChanges`.

Behaviour the model keeps as the code has it:

- **Line 98 tests the wrong object.** `addParamChange` asks whether the
  choices *array* has an own property named like the new parameter, not
  whether the specs have it. An array's own properties are `length` and its
  index strings (`ArrayHasOwnProperty`). So for every alphabetic name other
  than `length` the test is false, and the name's spec is overwritten with the
  default `UnicodeString` spec (`AlphabeticNameIsNotArrayProperty`, and the
  last `ensures` of `AddParamChange`).
- **Delete does not stop on a bad index.** `deleteParamChange` warns about an
  out-of-range index and then carries on. `splice(index, 1)` then removes
  nothing when the index is at or past the end. When the index is negative,
  it removes at `max(length + index, 0)`.
- **Cancel keeps registered names.** `cancelEdit` restores only the list. Spec
  registrations made while editing stay in the specs' working value.
- **Missing values throw.** A `RandomSelector` entry whose arguments have no
  `list_of_values` makes the validation loop throw a `TypeError`. The model
  returns the verdict `TypeError`, and a save that meets it changes nothing.

Modelling choices, each read off the JavaScript:

- `generator_id` is a string, not a closed enumeration: line 168 checks it
  with `PREAMBLE_TEXT.hasOwnProperty(generatorId)`, so any string may arrive
  and an unknown one is rejected with its own message.
- `addParamChange` registers a name according to line 98's test on the
  choices array (above), so the model states the add in terms of
  `ArrayHasOwnProperty` on the choice count, not membership in the specs.
- `deleteParamChange` removes with line 233's `splice(index, 1)` whatever the
  index, so removal is `SpliceOne`, which clamps the index as `splice` does.
- The sortable widget's `stop` hook (lines 247-261) only registers names and
  rebuilds the choices; the entry is moved in the list by the widget, outside
  this controller.

## Model

| member | source | states |
|---|---|---|
| `ParamChangesEditor.ParamChangesEditor.constructor` | core/templates/dev/head/pages/exploration_editor/ParamChangesEditorDirective.js:36-38 | a new editor is closed, with empty warning text, no name choices and no hook calls |
| `ParamChangesEditor.Store.RestoreFromMemento` | core/templates/dev/head/pages/exploration_editor/ParamChangesEditorDirective.js:195 | the working value becomes the committed snapshot, which is left as it was |
| `ParamChangesEditor.Store.SaveDisplayedValue` | core/templates/dev/head/pages/exploration_editor/ParamChangesEditorDirective.js:205-206 | the snapshot becomes the working value, which is left as it was |
| `ParamChangesEditor.AlertsLog.AddWarning` | core/templates/dev/head/pages/exploration_editor/ParamChangesEditorDirective.js:188 | exactly one warning is appended to the log |
| `ParamChanges.DefaultCustomizationArgs` | core/templates/dev/head/pages/exploration_editor/ParamChangesEditorDirective.js:48-56 | each known generator gets arguments of its own shape; RandomSelector gets exactly one value; any other id gets nothing |
| `ParamChanges.DefaultArgumentValues` | core/templates/dev/head/pages/exploration_editor/ParamChangesEditorDirective.js:48-70 | the Copier default copies `5` with Jinja parsing on, the RandomSelector default lists only `sample value`, and a default entry named `x` is exactly `{x, Copier, {true, 5}}` |
| `ParamChanges.DefaultParameterChange` | core/templates/dev/head/pages/exploration_editor/ParamChangesEditorDirective.js:64-70 | the new entry carries the given name, generator Copier and the Copier defaults |
| `ParamChanges.DefaultParameterChangeValidIffName` | core/templates/dev/head/pages/exploration_editor/ParamChangesEditorDirective.js:64-70 | a default entry passes validation exactly when its name is alphabetic and not reserved |
| `JsBuiltins.LexLe` | core/templates/dev/head/pages/exploration_editor/ParamChangesEditorDirective.js:75 | the default `sort()` order on strings: character by character, a proper prefix first; proved reflexive, antisymmetric, transitive and total (`LexLeReflexive`, `LexLeAntisymmetric`, `LexLeTransitive`, `LexLeTotal`) |
| `JsBuiltins.Least` | core/templates/dev/head/pages/exploration_editor/ParamChangesEditorDirective.js:73-75 | the result is a member of the set that sorts no later than any other member |
| `JsBuiltins.SortedKeys` | core/templates/dev/head/pages/exploration_editor/ParamChangesEditorDirective.js:73-75 | the sorted keys hold each key exactly once, in strictly ascending order |
| `ParamChanges.GenerateParamNameChoices` | core/templates/dev/head/pages/exploration_editor/ParamChangesEditorDirective.js:72-81 | one choice per spec key, `id == text`, ids exactly the spec keys, strictly ascending |
| `ParamChanges.FirstChoiceIsLeastKey` | core/templates/dev/head/pages/exploration_editor/ParamChangesEditorDirective.js:72-81 | the first choice is the spec key that sorts first |
| `JsBuiltins.ArrayHasOwnProperty` | core/templates/dev/head/pages/exploration_editor/ParamChangesEditorDirective.js:98 | `hasOwnProperty` on a dense array holds exactly for `length` and the decimal index strings below its length |
| `ParamChanges.NewParamName` | core/templates/dev/head/pages/exploration_editor/ParamChangesEditorDirective.js:91-93 | the new entry's name is the id of the first dropdown choice, or `x` when there is none |
| `ParamChanges.AlphabeticNameIsNotArrayProperty` | core/templates/dev/head/pages/exploration_editor/ParamChangesEditorDirective.js:96-102 | an alphabetic name other than `length` is never an own property of the choices array, so it is always (re)registered |
| `ParamChangesEditor.ParamChangesEditor.AddParamChange` | core/templates/dev/head/pages/exploration_editor/ParamChangesEditorDirective.js:90-105 | exactly one default entry is appended, named by the first choice or `x`; its name is registered with the default spec and the choices are rebuilt unless the choice array has such a property; an alphabetic name other than `length` always ends with the default spec |
| `ParamChangesEditor.ParamChangesEditor.OpenParamChangesEditor` | core/templates/dev/head/pages/exploration_editor/ParamChangesEditorDirective.js:107-118 | when not editable nothing changes; otherwise the editor is open with fresh choices, and an empty list becomes exactly one default entry named by the least spec key, or `x` when there are no specs |
| `ParamChanges.WithDefaultArgs` | core/templates/dev/head/pages/exploration_editor/ParamChangesEditorDirective.js:120-123 | name and generator id are kept; the arguments become the defaults of the generator id |
| `ParamChangesEditor.ParamChangesEditor.OnChangeGeneratorType` | core/templates/dev/head/pages/exploration_editor/ParamChangesEditorDirective.js:120-123 | only the chosen entry changes, and only its arguments, to the defaults of its generator |
| `ParamChanges.DefaultArgsPassArgumentChecks` | core/templates/dev/head/pages/exploration_editor/ParamChangesEditorDirective.js:120-123 | after a reset, including to RandomSelector with `['sample value']`, validity depends only on the name and the generator id |
| `ParamChanges.RenderCopier` | core/templates/dev/head/pages/exploration_editor/ParamChangesEditorDirective.js:126-128 | the text is the preamble `to ` followed by exactly the value |
| `ParamChanges.Join` | core/templates/dev/head/pages/exploration_editor/ParamChangesEditorDirective.js:131-136 | the values in order with `, ` between neighbours and none at either end; `JoinFirst` shows the two ways of building it agree |
| `ParamChanges.RenderRandomSelector` | core/templates/dev/head/pages/exploration_editor/ParamChangesEditorDirective.js:129-139 | the loop builds `to one of [` + the values joined by `, ` + `] at random` |
| `ParamChanges.JoinFirst` | core/templates/dev/head/pages/exploration_editor/ParamChangesEditorDirective.js:129-139 | the joined text is the first value, then `, ` and the join of the rest |
| `ParamChanges.IsAlphabetic` | core/templates/dev/head/pages/exploration_editor/ParamChangesEditorDirective.js:158 | `/^[A-Za-z]+$/`: the name is non-empty and every character is an ASCII letter |
| `ParamChanges.IsKnownGenerator` | core/templates/dev/head/pages/exploration_editor/ParamChangesEditorDirective.js:168 | `PREAMBLE_TEXT.hasOwnProperty(id)`: the id is exactly `Copier` or `RandomSelector` |
| `ParamChanges.ReservedNameMessage` | core/templates/dev/head/pages/exploration_editor/ParamChangesEditorDirective.js:153-154 | the reserved-name message quotes the name between `The parameter name '` and `' is reserved.` |
| `ParamChanges.ReservedNameMessageInjective` | core/templates/dev/head/pages/exploration_editor/ParamChangesEditorDirective.js:153-154 | different names give different reserved-name messages |
| `ParamChanges.EntryVerdict` | core/templates/dev/head/pages/exploration_editor/ParamChangesEditorDirective.js:146-178 | an entry is accepted exactly when all five conditions hold; a throw happens only on an entry whose name and generator pass |
| `ParamChangesEditor.ParamChangesEditor.CheckParamChange` | core/templates/dev/head/pages/exploration_editor/ParamChangesEditorDirective.js:146-178 | the checks made in the loop body give the entry's verdict, and accept exactly the OK entries |
| `ParamChanges.ValidateAll` | core/templates/dev/head/pages/exploration_editor/ParamChangesEditorDirective.js:145-183 | the entries in list order, the first one whose verdict is not Accept decides; Accept when all pass (its lemmas `ValidateAllAcceptsExactly` and `ValidateAllReportsFirstFailure` state this) |
| `ParamChanges.ValidateAllAcceptsExactly` | core/templates/dev/head/pages/exploration_editor/ParamChangesEditorDirective.js:142-183 | a list is accepted exactly when every entry is OK; otherwise the verdict is one entry's |
| `ParamChanges.ValidateAllReportsFirstFailure` | core/templates/dev/head/pages/exploration_editor/ParamChangesEditorDirective.js:145-179 | the verdict on a list is the verdict on its first entry that is not OK |
| `ParamChanges.RandomSelectorNeedsValues` | core/templates/dev/head/pages/exploration_editor/ParamChangesEditorDirective.js:173-178 | a well-named RandomSelector entry is rejected with the no-values message exactly when its list is empty |
| `ParamChanges.EmptyNameRejected` | core/templates/dev/head/pages/exploration_editor/ParamChangesEditorDirective.js:147-150 | an empty name is rejected with the non-empty-name message, whatever else the entry holds |
| `ParamChanges.ReservedNameRejected` | core/templates/dev/head/pages/exploration_editor/ParamChangesEditorDirective.js:152-156 | a reserved non-empty name is rejected with the message naming it, before its characters are checked |
| `ParamChanges.UnknownGeneratorRejected` | core/templates/dev/head/pages/exploration_editor/ParamChangesEditorDirective.js:168-171 | a well-named entry whose generator id is not in the table is rejected with the generator-id message |
| `ParamChanges.NonAlphabeticNameRejected` | core/templates/dev/head/pages/exploration_editor/ParamChangesEditorDirective.js:158-163 | a non-reserved name holding any character outside A-Z, a-z gets the alphabetic-only message |
| `ParamChangesEditor.ParamChangesEditor.AreDisplayedParamChangesValid` | core/templates/dev/head/pages/exploration_editor/ParamChangesEditorDirective.js:142-183 | the result is the verdict on the list; `warningText` is cleared on success, holds the first failure's message on rejection, and is untouched by a throw |
| `ParamChanges.RegisterMissingNames` | core/templates/dev/head/pages/exploration_editor/ParamChangesEditorDirective.js:196-203 | the keys become the old keys plus the entries' names; old specs are kept; only new names get the default spec |
| `ParamChanges.RegisterMissingNamesIdempotent` | core/templates/dev/head/pages/exploration_editor/ParamChangesEditorDirective.js:194-205 | registering the same entries twice gives what registering once gives |
| `ParamChangesEditor.ParamChangesEditor.RegisterEntryNames` | core/templates/dev/head/pages/exploration_editor/ParamChangesEditorDirective.js:224-230 | the loop leaves the specs equal to the registration of the entries' names |
| `ParamChangesEditor.ParamChangesEditor.SaveParamChanges` | core/templates/dev/head/pages/exploration_editor/ParamChangesEditorDirective.js:185-210 | on rejection: one `Invalid parameter changes.` warning, `warningText` holds the first failure's message, the editor stays open or closed as it was, the hook is not called, both services unchanged. On success: closed, the specs are the old spec snapshot plus defaults for the missing names, both snapshots equal the working values, the hook is called once if present. On a throw: nothing changes |
| `ParamChangesEditor.SaveTwice` | core/templates/dev/head/pages/exploration_editor/ParamChangesEditorDirective.js:185-210 | saving a valid list twice commits the same snapshots as saving once |
| `JsBuiltins.SpliceStart` | core/templates/dev/head/pages/exploration_editor/ParamChangesEditorDirective.js:233 | the position `splice` removes at: the index when inside `0..length`, the length when past it, `length + index` clamped at 0 when negative |
| `JsBuiltins.SpliceOne` | core/templates/dev/head/pages/exploration_editor/ParamChangesEditorDirective.js:233 | the array `splice(index, 1)` leaves: one element removed at the clamped position, or none when that position is the end |
| `JsBuiltins.SpliceOneInRange` | core/templates/dev/head/pages/exploration_editor/ParamChangesEditorDirective.js:233 | an index inside the list removes exactly that element and keeps the others in order |
| `JsBuiltins.SpliceOnePastEnd` | core/templates/dev/head/pages/exploration_editor/ParamChangesEditorDirective.js:233 | an index at or past the end removes nothing |
| `JsBuiltins.SpliceOneNegative` | core/templates/dev/head/pages/exploration_editor/ParamChangesEditorDirective.js:233 | a negative index removes at `max(length + index, 0)` |
| `JsBuiltins.IntToString` | core/templates/dev/head/pages/exploration_editor/ParamChangesEditorDirective.js:215-217 | `'' + index`: the decimal digits of the magnitude, which read back to it (`NatToStringRoundTrip`), with `-` first exactly for a negative index (`SignIsFirstChar`) |
| `ParamChanges.DeleteOutOfRangeWarning` | core/templates/dev/head/pages/exploration_editor/ParamChangesEditorDirective.js:215-217 | the warning text is `Cannot delete parameter change at position `, the index, then `: index out of range` |
| `ParamChanges.DeleteOutOfRangeWarningInjective` | core/templates/dev/head/pages/exploration_editor/ParamChangesEditorDirective.js:215-217 | different indices give different out-of-range warnings |
| `JsBuiltins.NatToStringRoundTrip` | core/templates/dev/head/pages/exploration_editor/ParamChangesEditorDirective.js:215-217 | reading back the decimal text of a number gives the number |
| `JsBuiltins.IntToStringInjective` | core/templates/dev/head/pages/exploration_editor/ParamChangesEditorDirective.js:215-217 | the warning text names the index unambiguously: different indices have different texts |
| `ParamChangesEditor.ParamChangesEditor.DeleteParamChange` | core/templates/dev/head/pages/exploration_editor/ParamChangesEditorDirective.js:212-234 | an out-of-range index adds exactly the `Cannot delete parameter change at position <i>: index out of range` warning and a valid one adds none; names are registered and choices rebuilt; the list becomes `splice(index, 1)` of the old list |
| `ParamChangesEditor.ParamChangesEditor.SortableStop` | core/templates/dev/head/pages/exploration_editor/ParamChangesEditorDirective.js:247-261 | only registers the entries' missing names and rebuilds the choices |
| `ParamChangesEditor.ParamChangesEditor.CancelEdit` | core/templates/dev/head/pages/exploration_editor/ParamChangesEditorDirective.js:264-267 | the list equals its committed snapshot and the editor is closed; the specs are not touched |
| `ParamChangesEditor.ParamChangesEditor.ExternalSave` | core/templates/dev/head/pages/exploration_editor/ParamChangesEditorDirective.js:58-62 | a closed editor ignores the request; an open one has exactly the three outcomes of a save: a throw changes nothing; a rejection adds the one warning, sets `warningText` to the first failure's message and leaves the services and the hook count alone; an acceptance closes the editor, clears `warningText`, commits both services with the missing names registered and calls the hook once if present |

## Left out

- Angular plumbing is not modelled: `restrict`, the scope bindings, `templateUrl`, `$rootScope`, `$scope.$apply` and the `$on` event bus. The `externalSave` event handler is the plain method `ExternalSave`.
- The drag-and-drop widget's options, its `start` hook and the move of an element are done by the external sortable library. Only the name registration in `stop` is modelled.
- The static image URL (`dragDotsImgUrl`) is a lookup in another service and is not modelled.
- `editabilityService.isEditable()` is the `editable` parameter of `OpenParamChangesEditor`. `GLOBALS.INVALID_PARAMETER_NAMES` is the `reservedNames` constant of the editor. The post-save hook is the flag `hasPostSaveHook` and the call counter `postSaveHookCalls`, because its body is code the editor does not see.
- The two services are modelled only as a working value beside a snapshot, copied and restored. Anything else `saveDisplayedValue` does (recording changes, persistence) is not part of this model. Cancelling after adds and deletes restores the committed list because none of the editing methods may write a snapshot; their `modifies` clauses show this.
- A thrown `TypeError` is modelled as a verdict that ends the handler with no further change. How Angular reports the exception is not modelled.
- `angular.copy` is not needed: Dafny datatypes are values, so every default is a fresh copy.
- `ParamChanges.DefaultCustomizationArgs`: an unknown generator id gives `Missing`. The model does not capture that in JavaScript an id naming an inherited `Object.prototype` member (such as `toString`) would look up that member.
- `JsBuiltins.LexLe`: compares Dafny characters (Unicode scalar values). The default `sort()` compares UTF-16 code units, so the two orders differ only for strings holding characters outside the Basic Multilingual Plane.
- `ParamChangesEditor.ParamChangesEditor.OnChangeGeneratorType`: the entry is identified by its position in the list. The dropdown's write of the new `generator_id` happens before the handler runs and is not part of it.
- Names, generator ids and listed values are strings. `undefined`, `null` and non-string values, and the `String(x)` conversion of values in the renderer, are not modelled. The delete index is an integer; fractional and `NaN` indices are not modelled.
- `ParamChanges.RegisterMissingNames`, `ParamChangesEditor.ParamChangesEditor.RegisterEntryNames`: the specs are a plain JavaScript object whose own `hasOwnProperty` method is called at lines 198, 225 and 253. A parameter named `hasOwnProperty` passes every validation check, and once registered its key hides that method, so the next call throws a `TypeError`. In `saveParamChanges` this happens after the editor was closed and before either snapshot is saved. The model treats the specs as a map and always completes the registration, so for such a name it commits both snapshots where the code throws.
- `ParamChanges.RegisterMissingNames`: assigning to the key `__proto__` replaces the object's prototype instead of adding a key. That name contains underscores, so it fails validation, but `deleteParamChange` and the `stop` hook register names without validating. The model adds `__proto__` as an ordinary key.
- `JsBuiltins.IntToString`: gives plain decimal digits for every integer. JavaScript's `'' + i` switches to exponent form (`1e+21`) for magnitudes of 10^21 and more, so the out-of-range warning text differs for such indices.
- Line 143 assigns `paramChanges` without `var`, so outside strict mode it also creates or overwrites a global variable of that name. The model reads the list directly and has no global state.
