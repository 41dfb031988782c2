# DevFormFiller core in Dafny

DevFormFiller is a browser extension that fills web forms for developers.
A preset is an ordered list of field rules, each with a selector hint, a field
type and a value strategy. The extension injects a preset into the page. Each
hint resolves to a control through a five-stage cascade: CSS selector, `name`,
`id`, `placeholder`, label text. The value is materialised, either a literal
or a call into a fake-data generator found by a dotted path. It is written
into the control, followed by `input` and `change` events. The run waits for a
frame after every batch of fields and can submit the nearest form at the end.
Around this engine sit:

- an element picker that synthesises a selector and a label for a clicked
  element;
- a floating panel that builds presets from rows;
- the popup, which builds a two-field preset, applies a pick left in storage
  and reports failures;
- the content script's message guard;
- the name-to-generator lookup.

The model is organised one module per source file:

| module | file | models |
|---|---|---|
| `Wrappers` | wrappers.dfy | `Option` |
| `Strings` | strings.dfy | `\s`, `trim`, `toLowerCase` (ASCII), `includes`, `split`, number rendering, the fallback `cssEscape` and the CSS quoted-string reader it must satisfy |
| `Js` | js.dfy | JavaScript values, truthiness, `typeof`, `String(new Error(m))`, settled promises |
| `Types` | types.dfy | `src/lib/types.ts` |
| `Dom` | dom.dfy | a document as a sequence of elements in document order; `querySelector` is an oracle |
| `Injector` | injector.dfy | `src/content/injector.ts` |
| `Picker` | picker.dfy | `src/content/picker.ts` |
| `FieldGenerators` | field_generators.dfy | `src/lib/fieldGenerators.ts` |
| `Panel` | panel.dfy | `src/content/panel.ts` |
| `ContentIndex` | content_index.dfy | `src/content/index.ts` |
| `App` | app.dfy | `src/App.tsx` |

The model takes the same form as the code:

- Pure code is written as functions with lemmas. This covers the resolution
  cascade, value materialisation, selector synthesis, the lookup, preset
  building, `formatError` and the message guard.
- Code that mutates state becomes classes whose methods are proved against
  those functions:
  - the page the injector writes into (`Injector.Page`);
  - the pick session with its listeners and overlay (`Picker.PickSession`);
  - the panel's rows and buttons (`Panel.FloatingPanel`);
  - the popup's React state and its storage slot (`App.Popup`).
- Each loop of the source outside the table lookup is a `while` or `for`
  loop with invariants:
  - the field loop of `injectPreset`;
  - the event loop of `dispatchEvents`;
  - the segment loop of `resolveFakerMethod`;
  - the label scan;
  - the dictionary loop of `generateFormFields`;
  - the button loops of `setPicking`;
  - the list rendering of `setResults`.
- The first-match scan over `Object.entries(FIELD_METHOD_MAPPING)` in
  `getFakerMethodForField` (fieldGenerators.ts:79-83) belongs to a pure
  lookup. It is the recursive `FieldGenerators.PartialLookup`, and the `in`
  test before it is the recursive `FieldGenerators.KeyLookup`.

Three behaviours of the code are easy to misread, and the model keeps them as
written:

- `findElement` is declared to return an input, select or text-area
  control, but it does not check the kind of element it finds. A `div` found by the selector stage stops the cascade, and the
  rule then fails with "unsupported-element-or-type".
- An empty hint is not rejected. The `name` stage builds `[name=""]`, and
  that matches an element with an empty `name`
  (`Injector.EmptyHintMatchesEmptyName`).
- The content script's listener answers only the injection request. The
  popup's pick request and panel request reach no listener in
  `src/content/index.ts` (`App.OtherMessagesIgnored`).

## Model

| member | source | states |
|---|---|---|
| Strings.TrimShape | src/content/panel.ts:364 | `trim` keeps a contiguous middle slice with no whitespace at either end, and everything outside it is whitespace |
| Strings.TrimEmpty | src/content/panel.ts:364-365 | `trim()` gives "" exactly for blank strings, so a blank selector drops its row |
| Strings.NormalizeTextNormalized | src/content/injector.ts:236-238 | the label matcher's normal form has collapsed single spaces, no space at either end and no upper-case letter |
| Strings.NormalizeTextIdempotent | src/content/injector.ts:236-238 | normalising twice is normalising once |
| Strings.NormalizeTextEmpty | src/content/injector.ts:236-238 | a text normalises to "" exactly when it is blank |
| Strings.CssEscapeReadBack | src/content/injector.ts:240-245 | a CSS reader reads the escaped value back exactly, and the closing quote is the one the selector added, for any value without a line break |
| Strings.CssEscapeLineBreak | src/content/injector.ts:244 | a line break passes the fallback escaper unescaped and breaks the quoted string |
| Strings.NatToString | src/content/panel.ts:368 | a rendered number is a non-empty string of decimal digits |
| Strings.NatToStringRoundTrip | src/content/panel.ts:368 | reading the rendered digits back gives the number |
| Strings.NatToStringInjective | src/content/panel.ts:368 | different numbers render differently |
| Strings.SplitJoin | src/content/injector.ts:171 | `split` loses nothing: joining the pieces gives the path back, and no piece holds a dot |
| Strings.ContainsAt | src/lib/fieldGenerators.ts:80 | `includes` holds exactly when the substring occurs at some position |
| Strings.ContainsInfix | src/lib/fieldGenerators.ts:80 | a string contains whatever is placed inside it |
| Strings.ContainsSkipPrefix | src/App.tsx:329-343 | a prefix that cannot start the phrase neither creates nor hides an occurrence of it |
| Js.ErrorString | src/App.tsx:111-112 | `String(new Error(m))` is "Error: " followed by the message, and just "Error" for an empty message |
| Dom.FirstWhereSpec | src/content/injector.ts:96-99 | a first-match scan answers with the first index that satisfies the test, and with nothing exactly when none does |
| Dom.FirstWithAttrSpec | src/content/injector.ts:82-87 | `[name="v"]` selects the first element in document order with that attribute value, or nothing when there is none |
| Dom.ByIdSpec | src/content/injector.ts:89-94 | `getElementById` answers with the first element with that id; the empty id names nothing |
| Dom.ClosestSpec | src/content/injector.ts:226 | `closest("form")` finds a form that is the element itself or one of its ancestors, no nearer ancestor is a form, and it finds nothing only when there is none |
| Injector.ResolveOptions | src/content/injector.ts:14-23 | an option the caller leaves out keeps its default: yielding on, batch size 8 |
| Injector.JsRemainder | src/content/injector.ts:30-33 | JavaScript `%` is NaN for a zero divisor, smaller than the divisor in magnitude otherwise, and the usual remainder for non-negative operands |
| Injector.YieldsAfterMultiple | src/content/injector.ts:30-35 | the run waits after field i exactly when yielding is on, the batch size is non-zero and i+1 is a multiple of it; that wait is one frame yield |
| Injector.SafeQuery | src/content/injector.ts:107-119 | a thrown SyntaxError becomes "no element"; otherwise the answer is the selector engine's |
| Injector.NestedControlSpec | src/content/injector.ts:139-144 | a label's nested control is the first control inside it, and there is none only when no control lies inside it |
| Injector.LabelSearchFromStep | src/content/injector.ts:125-145 | the label scan stops at a label it hits and otherwise goes on to the next element |
| Injector.LabelSearchFirstLabel | src/content/injector.ts:121-148 | the label stage answers with the control of the first label whose trimmed, non-empty text fuzzy-equals the hint and that designates a control |
| Injector.LabelSearchNone | src/content/injector.ts:121-148 | the label stage finds nothing exactly when no label qualifies |
| Injector.FirstHit | src/content/injector.ts:76-105 | the first present entry comes after only absent ones, and there is none only when every entry is absent |
| Injector.ResolveFirstStage | src/content/injector.ts:76-105 | `findElement` answers with what the first stage that finds an element finds |
| Injector.ResolveNone | src/content/injector.ts:76-105 | `findElement` gives null exactly when all five stages find nothing |
| Injector.ResolveIsFirstHit | src/content/injector.ts:76-105 | the resolver is the first hit of its ordered stage list |
| Injector.NameBeatsLabel | src/content/injector.ts:79-87 | an element whose `name` is the hint wins over any label once the selector stage finds nothing |
| Injector.BlankHintNoLabel | src/content/injector.ts:126-128 | a blank hint never reaches a control through a label |
| Injector.EmptyHintMatchesEmptyName | src/content/injector.ts:82-87 | the hint "" still finds an element with an empty `name` |
| Injector.WalkEmptySegment | src/content/injector.ts:170-179 | a generator path with an empty segment resolves to undefined |
| Injector.GeneratedValueSource | src/content/injector.ts:150-168 | a non-empty generated value was returned by the function found at the end of a path without empty segments |
| Injector.StaticValue | src/content/injector.ts:151-153 | a static rule writes its literal, or "" when it has none |
| Injector.ApplySpec | src/content/injector.ts:181-216 | the value is written exactly when the element accepts the field type: a checkbox gets `checked` from "true", "1" or "on", and every other type gets `value` |
| Injector.FieldStep | src/content/injector.ts:46-74 | one rule changes only `value` and `checked` |
| Injector.FieldStepOutcome | src/content/injector.ts:46-74 | "element-not-found" exactly when no stage finds an element; "unsupported-element-or-type" exactly when the element found rejects the type; otherwise that element alone is written and gets `input` then `change` |
| Injector.RunnerSound | src/content/injector.ts:46-74 | every `injectField` outcome has the fixed result shape and keeps the tree |
| Injector.StepCounts | src/content/injector.ts:46-74 | one field never yields or submits and dispatches two events exactly when it matched |
| Injector.RunKeepsTree | src/content/injector.ts:25-36 | a run changes only `value` and `checked` |
| Injector.RunResultsPerRule | src/content/injector.ts:25-29 | every rule gives one result, in rule order, naming that rule and its selector |
| Injector.RunPrefixStable | src/content/injector.ts:25-36 | later rules never change earlier results or effects |
| Injector.RunResultAt | src/content/injector.ts:25-29 | result k is rule k applied to the elements exactly as the earlier rules left them |
| Injector.RunTwo | src/content/injector.ts:25-36 | a two-rule run is the first rule, its pause, the second rule, its pause |
| Injector.YieldCount | src/content/injector.ts:25-36 | with yielding on and a non-zero batch size b, the run waits n / abs(b) times; otherwise never |
| Injector.YieldsChangeNothingElse | src/content/injector.ts:30-35 | the yield options change no result, no element and no other effect |
| Injector.DispatchesPerMatch | src/content/injector.ts:181-222 | a run dispatches exactly two events per matched rule and submits nothing by itself |
| Injector.FirstFormSpec | src/content/injector.ts:226 | `querySelector("form")` is the first form in document order |
| Injector.SubmitTargetSpec | src/content/injector.ts:224-230 | the submission goes to a form: the nearest form that is or encloses the focused element when there is one, otherwise the first form in document order; there is none only when the document has no form |
| Injector.InjectRun | src/content/injector.ts:19-44 | a whole run changes only `value` and `checked` |
| Injector.InjectRunResults | src/content/injector.ts:19-44 | one result per rule, in order, of the fixed shape; the number of frame yields follows the batch size |
| Injector.SubmitOnceAtEnd | src/content/injector.ts:38-40 | at most one submission, only when the preset asks for it, as the very last effect, and exactly when the document has a form |
| Injector.FillByName | src/content/injector.ts:82-87 | a hint that is the `name` of a text control writes the value there and fires the two events |
| Injector.TwoFieldExample | src/content/injector.ts:19-44 | a two-input form is filled by `name` with both literals and one `input` and one `change` each |
| Injector.ResolveFakerMethod | src/content/injector.ts:170-179 | the segment loop computes the path walk |
| Injector.BuildValue | src/content/injector.ts:150-168 | `buildValue` computes the materialised value |
| Injector.Page.FindByLabelText | src/content/injector.ts:121-148 | the label loop answers as the label stage |
| Injector.Page.FindElement | src/content/injector.ts:76-105 | the cascade on the page answers as the resolver |
| Injector.Page.DispatchEvents | src/content/injector.ts:218-222 | the named events are dispatched at the element, in order |
| Injector.Page.ApplyValue | src/content/injector.ts:181-216 | writes exactly the element as the write specification says and logs its two events, or changes nothing |
| Injector.Page.InjectField | src/content/injector.ts:46-74 | the page ends as the one-rule outcome says |
| Injector.Page.SubmitNearestForm | src/content/injector.ts:224-230 | asks exactly the submission target to submit, if there is one |
| Injector.Page.InjectNext | src/content/injector.ts:25-35 | one turn of the field loop: the rule's outcome, then a frame yield exactly when the options ask for one after it, as the run specification's next state says |
| Injector.Page.InjectFields | src/content/injector.ts:25-36 | the field loop leaves results, elements and the event log as the run specification over all rules says |
| Injector.Page.InjectPreset | src/content/injector.ts:19-44 | the loop leaves results, elements and the event log as the run specification says |
| Picker.IndexOf | src/content/picker.ts:115 | `indexOf` answers with a position holding the element, and -1 exactly when it is absent |
| Picker.IndexOfAppend | src/content/picker.ts:115 | an element absent from a prefix is found in the rest, shifted by the prefix's length |
| Picker.SiblingsOfTypeMembers | src/content/picker.ts:112-114 | the filtered siblings are exactly the parent's children with the same tag |
| Picker.SiblingsOfTypeSplit | src/content/picker.ts:112-114 | the siblings split into those before a position and those from it on |
| Picker.NthOfTypeCounts | src/content/picker.ts:109-117 | the nth-of-type index is one more than the same-tag siblings before the element; the fallback 1 is used only for a first child |
| Picker.NthOfTypeDistinct | src/content/picker.ts:109-117 | two same-tag children of one parent get different nth-of-type selectors |
| Picker.BuildSelectorPriority | src/content/picker.ts:62-88 | a control's selector comes from the first non-empty attribute of id, name, data-testid, placeholder, aria-label, type |
| Picker.BuildSelectorFallback | src/content/picker.ts:62-88 | non-controls, and controls without those attributes, get the nth-of-type path |
| Picker.AttrSelectorReadsBack | src/content/picker.ts:72-84 | the quoted attribute value reads back exactly, followed by the closing bracket |
| Picker.BuildSelectorNonEmpty | src/content/picker.ts:62-118 | the synthesised selector is never empty |
| Picker.BuildLabelChoice | src/content/picker.ts:90-107 | the label is never empty; for a control it is the first non-empty of ARIA label, placeholder and name, else the lower-case tag; any other element gives its lower-case tag |
| Picker.Clamp | src/content/picker.ts:31-35 | the overlay box has no negative coordinate and keeps the non-negative ones |
| Picker.ClickResultEmpty | src/content/picker.ts:41-43 | a click gives the empty selector and no label exactly when there was neither a clicked element nor a tracked one |
| Picker.MovesNeverSettle | src/content/picker.ts:27-36 | mouse moves alone never settle the pick |
| Picker.SettleIgnoresLater | src/content/picker.ts:38-54 | once a click or Escape has settled the pick, later events change nothing |
| Picker.PickSession.constructor | src/content/picker.ts:6-58 | the overlay is shown, the three listeners are installed, nothing is tracked |
| Picker.PickSession.Cleanup | src/content/picker.ts:20-25 | the overlay and all three listeners are removed |
| Picker.PickSession.HandleMove | src/content/picker.ts:27-36 | an element target is tracked and covered by the clamped box; other targets change nothing |
| Picker.PickSession.HandleClick | src/content/picker.ts:38-46 | the click is suppressed, the clicked or tracked element is committed and the session ends |
| Picker.PickSession.HandleKeydown | src/content/picker.ts:48-54 | Escape cancels with an empty selector; other keys change nothing |
| Picker.PickSession.Deliver | src/content/picker.ts:56-58 | one event settles or tracks as the session specification says, and nothing after settling |
| Picker.PickSession.DeliverAll | src/content/picker.ts:6-59 | a whole event sequence settles the pick exactly as the session specification says |
| FieldGenerators.KeepNameChars | src/lib/fieldGenerators.ts:71 | the filter never lengthens a name |
| FieldGenerators.KeepNameCharsSpec | src/lib/fieldGenerators.ts:71 | the filter's output holds only `a`-`z` and `0`-`9`, and a string made only of those passes unchanged |
| FieldGenerators.KeepNameCharsAppend | src/lib/fieldGenerators.ts:71 | the global `replace` works piecewise: the filter of a concatenation is the concatenation of the filters |
| FieldGenerators.KeepNameCharsChar | src/lib/fieldGenerators.ts:71 | a single character is kept exactly when it is in `a`-`z` or `0`-`9`; with the piecewise lemma this fixes the filter on every string |
| FieldGenerators.NormalizeName | src/lib/fieldGenerators.ts:71 | normalising never lengthens a name |
| FieldGenerators.NormalizeNameSpec | src/lib/fieldGenerators.ts:71 | a normalised name holds only name characters, and normalising again changes nothing |
| FieldGenerators.NormalizeNameFixed | src/lib/fieldGenerators.ts:71 | a name of name characters is its own normal form |
| FieldGenerators.NormalizeNameNonEmpty | src/lib/fieldGenerators.ts:71 | a name starting with a letter or digit keeps a non-empty normal form |
| FieldGenerators.KeyLookup | src/lib/fieldGenerators.ts:74-76 | the direct stage answers with a row of the table |
| FieldGenerators.KeyLookupSpec | src/lib/fieldGenerators.ts:74-76 | the direct stage finds the first row whose key is the name, and nothing exactly when none is |
| FieldGenerators.PartialLookup | src/lib/fieldGenerators.ts:79-83 | the partial stage answers with a row of the table |
| FieldGenerators.PartialLookupSpec | src/lib/fieldGenerators.ts:78-83 | the partial stage finds the first row in table order whose key is a substring of the name or contains it, and nothing exactly when none does |
| FieldGenerators.ContainsEmpty | src/lib/fieldGenerators.ts:80 | every string includes "" |
| FieldGenerators.KeysStartLower | src/lib/fieldGenerators.ts:8-63 | every key of the table starts with a lower-case letter |
| FieldGenerators.KeysNonEmpty | src/lib/fieldGenerators.ts:8-63 | no key is empty, even after normalising |
| FieldGenerators.LookupAsWritten | src/lib/fieldGenerators.ts:70-86 | the lookup as written answers with a row of the table, an inherited member or nothing |
| FieldGenerators.CamelKeyNeverDirect | src/lib/fieldGenerators.ts:71-76 | a key with an upper-case letter never equals a normalised name |
| FieldGenerators.AsWrittenDirectFirst | src/lib/fieldGenerators.ts:73-76 | as written, a name equal to a key gets that key's first row before any substring test |
| FieldGenerators.AsWrittenPartial | src/lib/fieldGenerators.ts:78-85 | as written, a name that is no key gets the first row whose raw key is a substring of it or contains it, and nothing exactly when none is |
| FieldGenerators.AsWrittenEmptyName | src/lib/fieldGenerators.ts:79-83 | a name normalising to "" gets the first row, since every key contains "" |
| FieldGenerators.AsWrittenFirstRow | src/lib/fieldGenerators.ts:73-83 | the first row answers only a name equal to its key or partially matching it |
| FieldGenerators.AsWrittenMissesFirstName | src/lib/fieldGenerators.ts:70-86 | as written, "firstName" is not answered from the row whose key is "firstName" |
| FieldGenerators.AsWrittenConstructor | src/lib/fieldGenerators.ts:74-75 | as written, "constructor" gets the inherited `Object.prototype.constructor` instead of a path |
| FieldGenerators.NormalizeKeys | src/lib/fieldGenerators.ts:71-76 | each key is put in the names' normal form, with its path kept |
| FieldGenerators.LookupRow | src/lib/fieldGenerators.ts:70-86 | the corrected lookup answers with a row of the table or nothing |
| FieldGenerators.LookupInTable | src/lib/fieldGenerators.ts:70-86 | the corrected lookup only ever answers with a path of the table |
| FieldGenerators.LookupDirectFirst | src/lib/fieldGenerators.ts:73-76 | a name equal to a normalised key gets its first row before any substring test |
| FieldGenerators.LookupFindsKey | src/lib/fieldGenerators.ts:73-76 | every key is found directly: its own row or an earlier one with the same normal form |
| FieldGenerators.LookupPartial | src/lib/fieldGenerators.ts:78-85 | with no equal key, the first row whose normalised key is a substring of the name or contains it, and nothing exactly when none is |
| FieldGenerators.LookupEmptyName | src/lib/fieldGenerators.ts:79-83 | a name normalising to "" gets the first row |
| FieldGenerators.LookupFirstName | src/lib/fieldGenerators.ts:70-76 | corrected, "firstName" gets "person.firstName" |
| FieldGenerators.EmptyNameFirstEntry | src/lib/fieldGenerators.ts:70-86 | a name normalising to "" gets "person.firstName", corrected and as written alike |
| FieldGenerators.FailedGuideValue | src/lib/fakerGenerator.ts:16-57 | a guide that is not a string (the inherited `constructor` function) fails inside `generateByMethod`, which gives ""; the number type turns that into 0 |
| FieldGenerators.GenerateFieldValueNoMatch | src/lib/fieldGenerators.ts:94-100 | with the lookup as written, a name that matches no raw key either way and is no inherited member asks the generator by field type alone |
| FieldGenerators.GenerateFieldValueConstructor | src/lib/fieldGenerators.ts:94-100 | as written, a name normalising to "constructor" gives "" (0 for the number type) and never reaches the generator |
| FieldGenerators.GenerateFieldValueCorrectedNoMatch | src/lib/fieldGenerators.ts:94-100 | with the corrected lookup, a name that matches no normalised key either way asks the generator by field type alone |
| FieldGenerators.GenerateFormFields | src/lib/fieldGenerators.ts:107-121 | the loop builds the dictionary that writing the fields in order gives, each value from the lookup as written |
| FieldGenerators.FormFieldsKeys | src/lib/fieldGenerators.ts:107-121 | one key per distinct field name, except "__proto__", which the object refuses, with either lookup |
| FieldGenerators.FormFieldsLastWins | src/lib/fieldGenerators.ts:112-118 | the value under a name comes from its last field, drawn at its position: its own non-empty path, else `generateFieldValue` with the lookup as written |
| FieldGenerators.FormFieldsCorrectedLastWins | src/lib/fieldGenerators.ts:112-118 | the same with the corrected lookup: its own path, else the generator guided by the normalised-key path |
| Panel.WithPanelSpec | src/content/panel.ts:7-216 | opening when the panel exists changes nothing; otherwise exactly one element with the panel id is appended |
| Panel.WithPanelIdempotent | src/content/panel.ts:8 | opening twice is opening once: at most one panel |
| Panel.PanelSubmitsFirstForm | src/content/panel.ts:393-400 | when the focused element is the panel's host under a root that is no form, an auto-submitting panel submits the document's first form, never the host |
| Panel.OpenPanel | src/content/panel.ts:7-216 | the page ends with the panel host added at most once, and nothing is dispatched |
| Panel.ToFieldType | src/content/panel.ts:296-302 | a row's type select has no `select` option |
| Panel.KeepFlags | src/content/panel.ts:358-375 | one flag per row, set exactly when the row gives a rule |
| Panel.BuildPreset | src/content/panel.ts:354-387 | the preset is named "Floating Panel", matches every URL and carries the checkbox state and the id |
| Panel.PositionsSet | src/content/panel.ts:358-375 | `filter` keeps only rows that give a rule |
| Panel.PositionsIncreasing | src/content/panel.ts:358-375 | `filter` keeps row order |
| Panel.PositionsComplete | src/content/panel.ts:358-375 | `filter` keeps every row that gives a rule |
| Panel.KeptRowsSpec | src/content/panel.ts:358-375 | the kept rows are, in order, exactly those that give a rule; the others lack a control or have a blank selector |
| Panel.BuildFieldsKept | src/content/panel.ts:358-375 | the rules are those of the kept rows, in row order |
| Panel.FieldForShape | src/content/panel.ts:359-373 | a row gives a rule exactly when complete with a non-blank selector; the rule is "field-" plus position+1, with the trimmed selector, the verbatim value and the static strategy |
| Panel.BuildFieldsIdsDistinct | src/content/panel.ts:368 | rule ids never repeat, although numbers skip dropped rows |
| Panel.RenderItem | src/content/panel.ts:243-256 | OK or NG follows `matched`; a failure shows its reason in parentheses, and an absent reason shows "undefined" |
| Panel.FloatingPanel.constructor | src/content/panel.ts:406-407 | the panel starts with the 氏名 and メール rows, enabled, unchecked and empty |
| Panel.FloatingPanel.AddRow | src/content/panel.ts:402-404 | an enabled add button appends an empty text row |
| Panel.FloatingPanel.RemoveRow | src/content/panel.ts:331-333 | an enabled remove button removes exactly that row |
| Panel.FloatingPanel.SetPicking | src/content/panel.ts:258-272 | every pick and remove button, the add and inject buttons and the dimming follow the flag; nothing else changes |
| Panel.FloatingPanel.ApplyPick | src/content/panel.ts:340-348 | a non-empty selector replaces the row's; the label is filled only when empty; an empty selector cancels |
| Panel.FloatingPanel.Pick | src/content/panel.ts:335-349 | an enabled pick button; the panel is enabled again after the pick; a non-empty pick sets that row's selector and fills its label only when empty, an empty one leaves the row as it was; every other row is untouched, and the status says which |
| Panel.FloatingPanel.SetResults | src/content/panel.ts:243-256 | one rendered line per result, in order |
| Panel.FloatingPanel.Inject | src/content/panel.ts:393-400 | the preset is built from the rows and injected into the page with the default options; the page's elements and log end as the injection run says, one line per rule renders that run's result, and the status says it is done |
| Panel.DefaultPreset | src/content/panel.ts:406-407 | the default rows give the rules field-1 on "name" (text) and field-2 on "email" (email) |
| ContentIndex.IsInjectMessage | src/content/index.ts:9-17 | accepted exactly when an object's `type` is the injection tag and its `preset` is a non-null object; nothing inside the preset is checked |
| ContentIndex.InjectMessageAccepted | src/content/index.ts:13-15 | a message carrying any object as its preset is accepted, and the preset is handed on |
| ContentIndex.Listen | src/content/index.ts:19-31 | no response and an undefined return for other messages; otherwise true, then `{ok:true, results}` or `{ok:false, error}` as the injection settles |
| ContentIndex.OtherTypeIgnored | src/content/index.ts:20 | a message of another type gets no response |
| App.FormatError | src/App.tsx:329-343 | every status starts with "失敗: "; the active-tab marker wins; the three transport phrases give the content-script message; any other text follows the prefix unchanged |
| App.ErrorStringClassified | src/App.tsx:329-343 | `String(new Error(m))` is classified as `m`, so the popup's own rejections are reported by their message |
| App.OwnRejections | src/App.tsx:100-112 | "active-tab-not-found" gives the active-tab message; "no-response" gives the content-script message |
| App.ApplyPick | src/App.tsx:44-58 | the target's selector changes only for a non-empty pick selector; its value is filled from the label only when empty; the other target is untouched |
| App.ApplyPickIdempotent | src/App.tsx:35-63 | applying a pick twice is applying it once |
| App.PopupPresetResults | src/App.tsx:65-91 | injecting the popup preset reports on exactly fullName then email, with the form's hints |
| App.EncodePreset | src/App.tsx:270 | the preset travels as an object |
| App.PopupMessageAccepted | src/App.tsx:270 | the popup's injection request always passes the content script's guard |
| App.OtherMessagesIgnored | src/App.tsx:293 | the pick and panel requests never start an injection and get no answer from the injection listener |
| App.ActiveTabId | src/App.tsx:99-102 | a missing tab, a missing id and the id 0 all fail as "active-tab-not-found"; a query error fails with its message |
| App.Receive | src/App.tsx:263-284 | the last error wins, then a missing response rejects as "no-response", else the response is the result |
| App.InjectStatus | src/App.tsx:93-116 | details are shown only with the done status; every other status is a failure message |
| App.InjectEndToEnd | src/App.tsx:104-110 | with the listener's answer delivered, the popup reports done with the results exactly when the injection resolves, and otherwise the error text |
| App.TabIdZero | src/App.tsx:100-102 | a tab with id 0 is reported as a missing active tab |
| App.PickStatus | src/App.tsx:118-135 | the pick ends with the reopen hint or a failure message |
| App.OpenPanelStatus | src/App.tsx:137-148 | the panel request ends with the shown message or a failure message |
| App.PickStatusCases | src/App.tsx:118-135 | the reopen hint exactly when the tab was found and the request delivered; otherwise the formatted rejection of the step that failed first |
| App.OpenPanelStatusCases | src/App.tsx:137-148 | the shown message exactly when the tab was found and the request delivered, whatever the answer's `ok`; otherwise the formatted rejection of the step that failed first |
| App.PickFailureUnreported | src/App.tsx:128-129 | a delivered refusal from the picker is still reported as made |
| App.Popup.constructor | src/App.tsx:25-33 | the initial form: empty values, hints "name" and "email", no status |
| App.Popup.LoadLastPick | src/App.tsx:35-63 | nothing without a record; a record older than two minutes is only removed; otherwise the pick is applied, removed and reported; an age of exactly two minutes still applies |
| App.Popup.HandleInject | src/App.tsx:93-116 | sends the preset built from the form and ends with the status and details its specification gives, no longer running |
| App.Popup.HandlePick | src/App.tsx:118-135 | ends with the pick status, no longer picking |
| App.Popup.HandleOpenPanel | src/App.tsx:137-148 | ends with the panel status |
| App.LoadTwice | src/App.tsx:63 | re-running the effect after a pick changes nothing more: the record is gone |

## Left out

- `CSS.escape`: the browser's escaper exists wherever the extension runs, so the fallback branch is not taken there. The two modules treat this differently.
  - The injector's `name` and `placeholder` stages are exact attribute scans. That is what a natively escaped `[name="…"]` selects. The fallback's failure on a hint with a line break is not modelled: there `querySelector` would throw and `injectPreset` would reject. `Strings.CssEscapeLineBreak` shows only that the fallback breaks the string.
  - The picker builds its selectors with the fallback escaper, not the native one. The native escaper also escapes spaces, punctuation and leading digits, so the picker's output differs for such values. For the id "form:email" the model gives `#form:email` where the browser gives `#form\:email`. Only the quoted attribute selectors are proved to read back (`Picker.AttrSelectorReadsBack`); no lemma covers `#id` selectors.
- `toLowerCase` lowers only the ASCII letters. Other scripts' case mappings are not modelled.
- The fake-data generator and its randomness are parameters: a `Catalog` for the injector, a function `gen(draw, request)` for the lookup.
- `crypto.randomUUID` and `Date.now` preset ids are a parameter. The clock is the `now` parameter of `App.Popup.LoadLastPick`.
- `requestAnimationFrame`: a frame yield is recorded as an effect. Whatever the page's own scripts do during that frame is not modelled.
- ApplySpec: the `value` setter is modelled as storing the string as given. The DOM's value sanitization is not modelled: a number input given "abc" keeps "", and a select given a value that matches no option keeps "". A non-empty value written to `<input type="file">` throws InvalidStateError in the source, which rejects the whole `injectPreset`. The model instead writes the value and reports the rule as matched.
- FieldStep: `dispatchEvent` runs the page's `input` and `change` listeners synchronously, and they may change any element. The model takes those listeners to do nothing, so a step changes only the target's `value` or `checked`. A throwing file input (see ApplySpec) is not modelled either.
- FieldStepOutcome: for the same reasons, a rule aimed at a file input with a non-empty value is reported as matched, whereas the source throws. Page listeners' changes are not part of the outcome.
- RunnerSound: "keeps the tree" holds only because page listeners run by `dispatchEvent` are taken to do nothing.
- RunKeepsTree: "changes only `value` and `checked`" holds only without page listeners. With listeners, a later rule may resolve against a document an earlier rule's events changed.
- InjectRun: the run never rejects, and changes only `value` and `checked`. This holds because page listeners, value sanitization and the file-input throw are not modelled (see ApplySpec and FieldStep).
- Numbers are integers. Fractional pixel rectangles, fractional timestamps and NaN are not modelled.
- CSS selector matching is an oracle over the document. `querySelector` syntax is not parsed.
- Event targets that are not elements are modelled as no target.
- HTML, CSS and React rendering are not modelled, and neither are the panel's shadow tree and its inner elements. The panel is its host element plus the state of its rows and buttons.
- Panel.OpenPanel: the early exit when the panel's own inner elements are missing is not modelled. That branch cannot be taken with the fixed markup.
- Closing the panel is not modelled, because element indices would need renumbering. Closing removes the host and discards the rows, and the model keeps neither step. So `Panel.WithPanelIdempotent` describes the page only while the panel is open; after a close, `openPanel` builds a new panel with the default rows.
- Panel.Row: the `complete` flag stands for the row's inner-element checks. Those checks cannot fail for rows the panel creates.
- Panel.FloatingPanel.Inject: a rejected `injectPreset` is not modelled. The panel has no handler for it, and the modelled run always resolves. Its writes to the page carry the caveats of InjectRun: page listeners, value sanitization and the file-input throw are left out.
- `chrome.storage` and `chrome.tabs` are asynchronous. Each handler is modelled as one step, with the transport's answer given as a parameter. `chrome.runtime.lastError.message` is modelled as a string.
- The background worker that re-injects the content script is not part of this model.

## Findings

| source | as written | input that shows it | evidently intended | confidence | as-written member | corrected member |
|---|---|---|---|---|---|---|
| src/lib/fieldGenerators.ts:71-76 | the name is lower-cased, but camelCase keys are not, so keys such as "firstName" never match directly | field name "firstName" (normal form "firstname") is not answered from the "firstName" row | normalise the keys as well, so that every key is found by the direct stage | high (not executed) | FieldGenerators.AsWrittenMissesFirstName | FieldGenerators.LookupFirstName |
| src/lib/fieldGenerators.ts:74-75 | the `in` test also sees members inherited from `Object.prototype` | field name "constructor" returns the inherited function instead of a path or undefined | consult only the table's own rows | high (not executed) | FieldGenerators.AsWrittenConstructor | FieldGenerators.LookupInTable |

`FieldGenerators.GenerateFieldValue`, `FieldGenerators.FormFields` and
`FieldGenerators.GenerateFormFields` model the code as written. They use the
lookup as written, inherited member included. `GenerateFieldValueCorrected`
and `FormFieldsCorrected` are the corrected counterparts.
