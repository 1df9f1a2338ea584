# Form validation and template factory, modelled in Dafny

This project models three files of a Bootstrap fork's JavaScript:

- `TemplateFactory` (js/src/util/template-factory.js) resolves a template configuration against its defaults and type-checks it. It renders the template into an element (`toHtml`) and reports the content it would render (`getContent`, `hasContent`).
- `Messages` (js/src/forms/messages.js) is a JavaScript `Map` from message key to a `TemplateFactory`. Each factory is built from one shared template configuration with its `content` replaced by `{div: message}`.
- `FormValidation` (js/src/forms/form-validation.js) keeps a form's `was-validated` class and a lazily built map from control id to field. `clear()`, `autoValidate()` and the submit handler drive each field's error and success messages.

The modules are:

- `Options` holds `Option` and `Result`.
- `JsValues` holds the JavaScript values, truthiness and the type names `typeCheckConfig` compares.
- `Dom` is a value tree of elements addressed by child-index paths. It provides `querySelector` as first match in document order, `remove`, and `textContent`/`innerHTML` assignment.
- `Strings` holds `split` and `join`.
- `OrderedMaps` gives JavaScript `Map` semantics: insertion order, and `set` on an existing key keeps its place. Its type `JsMap` is a map that is always well formed.
- `Templates`, `FormMessages` and `FormValidations` model the three files.
- `FormFields` holds the part of a field that form validation uses.

Each file takes the source's own form:

- **Template resolution and rendering.** These are pure functions over values.
- **`TemplateFactory`, `Messages` and `FormValidation`.** Each is a class whose methods update its fields:
  - `changeContent` reassigns the factory's content.
  - `set` reassigns the message map.
  - `getFields`, `clear` and `autoValidate` update the form's class list and its field map. They also update the fields themselves.
- **Loops.** The constructor's entry check, `toHtml`'s content loop, `_initializeFields`, `clear`'s and `autoValidate`'s `forEach` and the `for…in` loop over validity flags are methods with `while` loops. Each is proved against a specification function.

A thrown exception is an `Err` result. The model states which state a throw leaves behind, for example the fields validated before the one whose `set` threw. Three things the code does are inputs to the model:

- what `checkValidity()` returns for the form and for each control;
- the controls' `validity` flags;
- each control's `validationMessage`.

Messages' `set` returns nothing in the source. The model's `Set` returns the stored factory so that callers can state what was stored.

## Model

| member | source | states |
|---|---|---|
| Templates.FirstIllTyped | js/src/util/template-factory.js:23-31 | None exactly when every option of the merged configuration has one of its allowed types; otherwise the first ill-typed option in `DefaultType` order |
| Templates.FirstBadEntry | js/src/util/template-factory.js:93-95 | None exactly when every content entry is a string, element, function or null; otherwise the first entry that is not |
| Templates.ResolveNonObject | js/src/util/template-factory.js:86-89 | a configuration argument that is not a plain object resolves to exactly the defaults (a host object included; see "Left out") |
| Templates.ResolveOptions | js/src/util/template-factory.js:85-98 | each resolved option is the caller's value when the caller gives one and the default otherwise; the content entries are the caller's |
| Templates.ResolveOthers | js/src/util/template-factory.js:86-89 | keys outside `DefaultType` are kept as the caller gave them |
| Templates.ResolveFails | js/src/util/template-factory.js:85-98 | resolution throws exactly when some option is ill-typed or some content entry is not string, element, function or null; the error names an ill-typed option first, else `entry` |
| Templates.TemplateFactory.Create | js/src/util/template-factory.js:38-40 | the constructor throws the resolution's type error, or yields a fresh factory whose configuration is the resolved one |
| Templates.TemplateFactory.GetContentAsWritten | js/src/util/template-factory.js:54-56 | `getContent` as written: truthy values only, at most one per entry, empty exactly when every entry resolves falsy when called with `undefined` |
| Templates.TemplateFactory.GetContent | js/src/util/template-factory.js:54-56 | `getContent` as intended: the same, with function entries called with the factory |
| Templates.ContentValuesAppend | js/src/util/template-factory.js:55 | the content list keeps content order: the values of concatenated entries are the concatenated values |
| Templates.ContentReceiverIrrelevant | js/src/util/template-factory.js:54-56 | for content with no function entry, the content list is the same whether functions would get `undefined` or the factory |
| Templates.ContentAgreesWithRender | js/src/util/template-factory.js:107-112 | for an entry whose selector matches, rendering removes the target exactly when the entry contributes nothing to `getContent` |
| Templates.GetContentAsWrittenMissesEntry | js/src/util/template-factory.js:55 | a function entry that reads its argument is rendered by `toHtml` but missing from `getContent` as written |
| Templates.TemplateFactory.HasContentAsWritten | js/src/util/template-factory.js:63-65 | `hasContent` as written: true exactly when some content entry resolves to a truthy value when functions are called with `undefined` |
| Templates.HasContentAsWrittenMisses | js/src/util/template-factory.js:63-65 | on a factory whose function entry reads its argument, `hasContent` as written is false while the intended one is true |
| Templates.TemplateFactory.HasContent | js/src/util/template-factory.js:63-65 | `hasContent` as intended: true exactly when some content entry, called with the factory, resolves to a truthy value |
| Templates.TemplateFactory.ChangeContent | js/src/util/template-factory.js:58-61 | the content is replaced, every other option is unchanged, and the same factory is returned |
| Templates.TemplateFactory.ToHtml | js/src/util/template-factory.js:67-82 | the loop over content entries yields exactly `Render` of the current configuration |
| Templates.RenderBareTemplate | js/src/util/template-factory.js:67-81 | with no content and no extra class the result is the first element of the parsed template, sanitised exactly when `sanitize` is on |
| Templates.RenderExtraClass | js/src/util/template-factory.js:76-79 | a truthy extra class adds every space-separated token to the root's classes and changes nothing else about the root |
| Templates.RenderFails | js/src/util/template-factory.js:75-81 | `toHtml` throws exactly when a truthy extra class meets a missing root, a non-string, or an empty or whitespace token; a falsy extra class yields the first element, if any |
| Templates.Resolve | js/src/util/template-factory.js:132-134 | a function is called once with the receiver as its argument; any other value comes back as it is (stated by `ResolveNonFunction`) |
| Templates.ResolveNonFunction | js/src/util/template-factory.js:132-134 | a value that is not a function resolves to itself, whatever the receiver |
| Templates.MaybeSanitize | js/src/util/template-factory.js:128-130 | the markup goes through `sanitizeHtml` with the configured allow list and filter exactly when `sanitize` is on (stated by `SetContentMarkup` and `RenderBareTemplate`) |
| Templates.ResolveConfig | js/src/util/template-factory.js:85-98 | merge over `Default`, check the options in `DefaultType` order, then each content entry (stated by `ResolveFails`, `ResolveOptions`, `ResolveOthers`, `ResolveNonObject`) |
| Templates.SetContent | js/src/util/template-factory.js:100-126 | `_setContent` on the wrapper: skip an unmatched selector, remove a falsy target, place an element, else set markup or text (stated by the `SetContent…` lemmas and `ContentAgreesWithRender`) |
| Templates.PutElementInTemplate | js/src/util/template-factory.js:136-148 | `_putElementInTemplate` (stated by `PutElementCases`) |
| Templates.Render | js/src/util/template-factory.js:67-82 | `toHtml` as a value: the wrapper after every content entry, with the extra classes added to its first element (stated by `RenderBareTemplate`, `RenderExtraClass`, `RenderFails`) |
| Templates.SetContentNoMatch | js/src/util/template-factory.js:101-105 | a selector that matches nothing leaves the template unchanged |
| Templates.SetContentRemovesFalsy | js/src/util/template-factory.js:107-112 | a falsy entry removes its target from its parent and keeps the siblings in order; the parent keeps its tag, classes and text, its ancestors keep theirs, and every other subtree is unchanged |
| Templates.SetContentText | js/src/util/template-factory.js:119-125 | with `html` off a non-element value becomes the target's literal text; only the target changes |
| Templates.SetContentMarkup | js/src/util/template-factory.js:119-122 | with `html` on a string becomes the target's parsed markup, sanitised exactly when `sanitize` is on; only the target changes |
| Templates.PutElementCases | js/src/util/template-factory.js:136-148 | an element entry: its text is copied when `html` is off; an identical target is left alone; otherwise the element becomes the target's only child |
| Dom.FindOne | js/src/util/template-factory.js:101 | a match is a strict descendant matching the selector; no match means no descendant matches |
| Dom.RemoveSpec | js/src/util/template-factory.js:110 | `remove()` takes the node out of its parent's children and keeps its siblings in order; the parent keeps its tag, classes and text, its ancestors keep theirs, and every other subtree is unchanged |
| Dom.WithText | js/src/util/template-factory.js:125 | after `textContent = s` the element's text content is `s` and it has no children |
| Strings.JoinSplit | js/src/util/template-factory.js:78 | splitting the extra class at spaces and joining the pieces with a space gives the string back |
| Strings.Split | js/src/util/template-factory.js:78 | `split` yields at least one piece, and no piece contains the separator |
| OrderedMaps.Empty | js/src/forms/messages.js:11 | a new map is well formed and has no keys |
| OrderedMaps.Get | js/src/forms/form-validation.js:59 | `get` finds a value exactly for the keys the map holds |
| OrderedMaps.Put | js/src/forms/messages.js:17 | `set` keeps the map well formed, a new key goes last and an old one keeps its place, and only the key set changes value |
| OrderedMaps.PutKeepsFirst | js/src/forms/messages.js:24-27 | setting a key never moves the earliest-inserted key |
| OrderedMaps.ValuesInOrderHas | js/src/forms/messages.js:21 | the values in order are exactly the values stored |
| OrderedMaps.SizeIsKeyCount | js/src/forms/messages.js:29-31 | the size of a map is the number of distinct keys stored |
| OrderedMaps.AddKeysHas | js/src/forms/form-validation.js:96-101 | setting several keys keeps the earlier keys in front and in order, and leaves exactly those and the keys set |
| OrderedMaps.PutAllKeys | js/src/forms/form-validation.js:96-101 | setting several keys adds each of them in turn to the key order |
| OrderedMaps.PutAllGet | js/src/forms/form-validation.js:96-101 | after several sets a key holds the value given last for it, and every other key holds its old value |
| FormMessages.MessageConfig | js/src/forms/messages.js:16 | the message configuration is the template configuration with `content` replaced by `{div: message}` |
| FormMessages.MessageConfigResolves | js/src/forms/messages.js:16-17 | a message's factory has exactly the content `{div: message}`; each other option is the base configuration's or the default |
| FormMessages.MessageConfigFails | js/src/forms/messages.js:16-17 | building a message's factory throws exactly when the message is not string, element, function or null, or some other option of the base is ill-typed |
| FormMessages.MessageText | js/src/forms/messages.js:20-22 | a string message comes back from its factory's content joined with `', '` as exactly that string |
| FormMessages.Messages.constructor | js/src/forms/messages.js:10-13 | a new message map is empty and keeps the template configuration |
| FormMessages.Messages.Set | js/src/forms/messages.js:15-18 | `set` throws the factory's type error and leaves the map as it was, or stores a fresh factory of the message configuration at the key |
| FormMessages.Messages.Has | js/src/forms/form-validation.js:91 | `has` is true exactly for the keys stored |
| FormMessages.Messages.GetAt | js/src/forms/form-validation.js:92 | `get` finds a factory of the map exactly for the keys stored |
| FormMessages.Messages.GetFirst | js/src/forms/messages.js:24-27 | `getFirst` yields nothing exactly for an empty map, otherwise the factory at the earliest-inserted key |
| FormMessages.Messages.Count | js/src/forms/messages.js:29-31 | `count` is the number of distinct keys stored |
| FormMessages.Messages.GetAllAsTextArrayAsWritten | js/src/forms/messages.js:20-22 | `getAllAsTextArray` as written: one string per key in insertion order, that factory's content as the unbound `getContent` gives it, joined with `', '` |
| FormMessages.Messages.GetAllAsTextArray | js/src/forms/messages.js:20-22 | `getAllAsTextArray` as intended: one string per key in insertion order, that factory's content with functions called with the factory, joined with `', '` |
| FormMessages.Messages.TextArraysAgree | js/src/forms/messages.js:21 | the two text arrays agree at every key whose factory has no function entry |
| FormMessages.Messages.TextArrayAsWrittenMisses | js/src/forms/messages.js:21 | with a function message that reads its argument, the text array as written holds `''` where the intended one holds the rendered text |
| FormMessages.Messages.TextArrayGivesMessages | js/src/forms/messages.js:20-22 | a key whose factory was made for the string message `m` contributes exactly `m` at its position |
| FormFields.Field.Append | js/src/forms/form-validation.js:87 | an `append()` adds one feedback entry at the end of the field's log |
| FormFields.Field.ClearAppended | js/src/forms/form-validation.js:65 | `clearAppended()` empties the field's log |
| FormValidations.FormConfigPrecedence | js/src/forms/form-validation.js:107-116 | `type` comes from the caller, else from the data attributes, else is `'feedback'`; resolution fails exactly when that value is not a string |
| FormValidations.ResolveFormConfig | js/src/forms/form-validation.js:107-116 | merge `Default`, the data attributes and the caller's object, then require `type` to be a string (stated by `FormConfigPrecedence`) |
| FormValidations.FormValidation.Create | js/src/forms/form-validation.js:34-44 | the constructor throws for a non-`FORM` element or an ill-typed configuration; otherwise the field map starts empty |
| FormValidations.LastWithId | js/src/forms/form-validation.js:133 | the control a map key ends up holding is the last control with that id, and none exists when no control has it |
| FormValidations.FieldsOf | js/src/forms/form-validation.js:124-136 | `_initializeFields` as a value: each control set at its id in control order, giving a well-formed map (its contents stated by `FieldsOfGet` and `FieldsOfShape`) |
| FormValidations.FieldsOfGet | js/src/forms/form-validation.js:124-136 | the field map holds, at each id, the last control carrying it, and nothing at any other key |
| FormValidations.FieldsOfShape | js/src/forms/form-validation.js:124-136 | every field in the map is a control of the form, stored under its own id |
| FormValidations.FormValidation.InitializeFields | js/src/forms/form-validation.js:124-136 | the loop builds exactly the field map of the controls, in control order |
| FormValidations.FormValidation.GetFields | js/src/forms/form-validation.js:50-56 | the map is built from the controls when empty and returned unchanged otherwise |
| FormValidations.FormValidation.GetField | js/src/forms/form-validation.js:58-60 | the field at `name`, which on a fresh map is the last control with that id |
| FormValidations.Toggled | js/src/forms/form-validation.js:69-76 | `was-validated` is present exactly when adding, and no other class changes |
| FormValidations.ToggledIdempotent | js/src/forms/form-validation.js:69-76 | toggling the same way twice is toggling once |
| FormValidations.FormValidation.ToggleValidateClass | js/src/forms/form-validation.js:69-76 | the class list becomes `Toggled(old, add)` |
| FormValidations.FormValidation.Clear | js/src/forms/form-validation.js:62-67 | removes `was-validated`; clears every field of the map exactly once; leaves displaced controls untouched |
| FormValidations.FormValidation.ClearAll | js/src/forms/form-validation.js:64-66 | each field of the map is cleared once and keeps its message maps |
| FormValidations.Expected | js/src/forms/form-validation.js:84-101 | the feedback one field of an invalid form appends: first success, else the `default` error, else one error per set flag (stated by `ExpectedShape`) |
| FormValidations.ExpectedShape | js/src/forms/form-validation.js:84-101 | a valid control shows at most its first success message; an invalid one shows only the `default` error when present, else an error for every set flag |
| FormValidations.TrueFlagsHas | js/src/forms/form-validation.js:96-97 | a key is reported exactly when some validity flag with that key is set |
| FormValidations.ErrorFeedbackAt | js/src/forms/form-validation.js:96-101 | one error feedback per reported key, in order |
| FormValidations.StoredConfigs | js/src/forms/form-validation.js:96-99 | after the flag loop, with factories all resolved to the validation-message configuration and none changed since, each reported key holds one of them, whose resolved and current configuration is that one, and every other key holds its old value |
| FormValidations.RejectsOnBadTemplate | js/src/forms/form-validation.js:98 | a field's `set` throws exactly when it has flags to report and some non-content option of its error template is ill-typed |
| FormValidations.FormValidation.ReportFlag | js/src/forms/form-validation.js:98-99 | `set` then `append`: throws and changes nothing, or stores at the key a fresh factory whose configuration, resolved and current, is the validation-message configuration, and logs one error |
| FormValidations.FormValidation.ReportFlags | js/src/forms/form-validation.js:96-101 | the flag loop throws exactly when a flag is set and the message template is ill-typed, changing nothing; otherwise it sets and logs every set flag in order, each to one of the factories it returns, all resolved to the validation-message configuration and none changed since |
| FormValidations.FormValidation.ValidateField | js/src/forms/form-validation.js:84-101 | one field of an invalid form: throws, changing nothing, exactly when the field rejects; otherwise its log grows by the expected feedback and its error map by the set flags, each holding a factory whose current configuration is the validation message's |
| FormValidations.FormValidation.ValidateAll | js/src/forms/form-validation.js:84-102 | the fields are validated in map order until the first that throws, and the rest are untouched; every key a validated field set holds one of the factories made, each still as resolved |
| FormValidations.FormValidation.ValidateMap | js/src/forms/form-validation.js:84-102 | as `ValidateAll`, and controls displaced from the map, with their message maps, are unchanged |
| FormValidations.FormValidation.ValidateFields | js/src/forms/form-validation.js:84-104 | validates the map's fields in order, each key set holding a factory still as resolved; adds `was-validated` exactly when none threw |
| FormValidations.FormValidation.AutoValidate | js/src/forms/form-validation.js:78-105 | clears, returns early for a valid form, otherwise validates the cleared fields up to the first throw, each key set holding a factory still as resolved; the class is added exactly for an invalid form without a throw |
| FormValidations.ValidatedShowsMessages | js/src/forms/form-validation.js:96-99 | a validated field whose new factories are still as resolved holds, at every key it set, a factory whose current configuration is the validation message's |
| FormValidations.ReportedText | js/src/forms/form-validation.js:96-99 | after validation, `getAllAsTextArray()` of a field's error map gives the control's `validationMessage` at the position of every key the field set |
| FormValidations.StopsAtFirstRejecting | js/src/forms/form-validation.js:84-102 | the fields before the stop did not reject, and validation reaches the end exactly when none rejects |
| FormValidations.ValidatedFeedback | js/src/forms/form-validation.js:78-102 | after `autoValidate` each validated field shows exactly what its maps called for; the others show nothing; every field was cleared once |
| FormValidations.RevalidateSame | js/src/forms/form-validation.js:84-101 | validating a field again sets the same keys and shows the same feedback, and again does not throw |
| FormValidations.FormValidation.Submit | js/src/forms/form-validation.js:139-148 | the submit is cancelled exactly when the form is invalid, and `autoValidate` then runs |

## Left out

- The event wiring is not modelled: the reset listener (form-validation.js:118-122, which calls `clear()`), the load listener that sets `novalidate` (150-154), `stopPropagation`, `getOrCreateInstance` and `BaseComponent`.
- field.js is not part of this model. A field is its control, its two message maps and a log of appended messages. The `{name, type}` options handed to `Field.getOrCreateInstance` are not modelled, and neither is the control's `name`, which only feeds the `name` option (`id || name`). The model assumes of field.js that no two fields share an error map and that no field's error map is another's success map (`Separate`, which `FormValidation.Create` requires).
- FormFields.Field.Append: form-validation.js:87, 92 and 99 call `append()` on the factories that `Messages` stores. `TemplateFactory` (template-factory.js:37-149) defines no `append`, and `set` stores a plain `new TemplateFactory(config)` (messages.js:17). As the modelled code stands, each of these calls would throw a `TypeError`. The model assumes a working `append` supplied by code outside this model, and that it never throws. `ReportFlag`, `ValidateField`, `ValidateAll` and `AutoValidate` rest on that assumption. Each call is recorded as the map and key it came from; what it renders is not modelled.
- The sanitizer, `SelectorEngine`, HTML parsing and `String()` of non-string values are not part of this model. They are fields of the `Host` parameter, and so are the results of content functions, which the model treats as having no side effects.
- `typeCheckConfig` is modelled as membership of the value's type (`TypeOf`) in the alternatives `DefaultType` allows. Keys are strings, so the `selector` check of `DefaultContentType` always passes and is not checked.
- `Manipulator.getDataAttributes` is not part of this model: the form's data attributes are the `data` argument of `FormValidation.Create`.
- Templates.RenderFails: the model's host never throws, so three throws of the source are not modelled: `querySelector` rejecting a content key that is not a valid selector (template-factory.js:101), a content function or `extraClass` function that throws when called (133), and `Object.values`/`Object.entries` of `null` or `undefined` content given to `changeContent` (55, 58-61, 71), whose argument the model types as a list of entries. `RenderFails` and `ResolveFails` state exactly the throws that remain.
- A host object (such as the default allow list) is opaque: spreading it contributes no properties, where JavaScript would spread its own enumerable properties. A host object passed as a configuration therefore resolves to the defaults, as `ResolveNonObject` states.
- FormValidations.FormValidation.AutoValidate: the controls of the form (`form.elements`) are fixed when the instance is created, and each control's `checkValidity()`, `validity` flags and `validationMessage` are fixed for the lifetime of its field. The source reads `elements` at the first `getFields()` and reads the validity afresh on every `autoValidate`, so controls added later and validity that changes between submits are not modelled; `RevalidateSame` compares two passes over the same control state.
- `outerHTML` equality is structural equality of element trees. Element identity, attributes other than classes, and moving an element out of its old place in the document are not modelled.
- Numbers are integers only, so `NaN` and other non-integers are not modelled. Objects have distinct property names in the order `Object.entries` gives. Arrays and other object kinds are not modelled.
- Selector matching is a host predicate on the candidate element and its subtree. Selectors that depend on ancestors or siblings (`.a > .b`, `:first-child`) cannot be expressed.
- Templates.SetContent: with `html` on, a truthy value that is not a string is turned into a string before it reaches `sanitizeHtml`. The source hands the raw value to `sanitizeHtml` (template-factory.js:120, 129), so how the sanitizer treats non-strings is not modelled.
- Dom.FindOne: the contract states a match and that there is no match at all when it finds none. It does not state that the match is the first in document order, though the definition searches in that order.
- Submit: the contract states cancellation and the class list. The fields' state afterwards is what `AutoValidate` states.
- RevalidateSame: requires that no set validity flag is named `default`. A flag of that name would make the second pass take the `default` branch.

## Findings

| source | as written | input that shows it | evidently intended | confidence | as-written member | corrected member |
|---|---|---|---|---|---|---|
| js/src/util/template-factory.js:55 | `getContent` passes `this._resolvePossibleFunction` to `map` unbound, so a function entry is called with `undefined`. `hasContent` (63-65) and `getAllAsTextArray` (messages.js:21) inherit this | content `{div: f}` where `f(factory)` returns `'shown'` when given the factory and `undefined` otherwise: `toHtml` renders `shown`, `getContent()` is empty | function entries are called with the factory, as `toHtml` calls them | high, not executed | Templates.GetContentAsWrittenMissesEntry | Templates.TemplateFactory.GetContent |
| js/src/util/template-factory.js:63-65 | `hasContent` asks the unbound `getContent`, so it misses content that only a function entry given the factory provides | the same content `{div: f}`: `hasContent()` is false while `toHtml` renders `shown` | true whenever some entry renders content | high, not executed | Templates.HasContentAsWrittenMisses | Templates.TemplateFactory.HasContent |
| js/src/forms/messages.js:21 | `getAllAsTextArray` joins the unbound `getContent` of each factory | a message map whose one factory has the content `{div: f}`: the text array is `['']` instead of `['shown']` | each message's text is what its factory renders | high, not executed | FormMessages.Messages.TextArrayAsWrittenMisses | FormMessages.Messages.GetAllAsTextArray |
