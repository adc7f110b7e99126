# Dynamic quote form engine, modelled in Dafny

This project models the logic of a freight-quote web front end.

- **The schema-driven wizard** (`DynamicQuoteForm.tsx`). A form configuration is a list of stages. Each stage holds
  fields, groups (one level of fields) and sections (transparent wrappers of fields and groups). The model covers:
  - the initial value tree built from the configuration;
  - the single-slot update on an edit;
  - the pass that recomputes computed fields;
  - per-stage validation with required checks and typed rules;
  - dependent select options;
  - `toPerfectTitleCase` for labels and messages;
  - the stage state machine (index, error map, per-stage status `untouched`/`incomplete`/`complete`, forward, back and guarded jumps).
- **The configuration vocabulary** (`types.ts`).
- **The contact page** (`ContactForm.tsx`): a record reducer, a validator with fixed email and phone patterns, and a
  submit that dispatches to the application state.
- **The fixed quote page** (`QuoteForm.tsx`): key-by-key handlers, a comma-joined carrier list and a thirteen-check validator.
- **The application state** (`context.tsx`): a two-slot reducer.

Layout: one module per concern.

| file | module | what |
|---|---|---|
| `common.dfy` | `Common` | `Option` |
| `text.dfy` | `Text` | JavaScript white space, `trim`, `split`/`join` on one character, ASCII case mapping |
| `schema.dfy` | `Schema` | tags, input types, rules, fields, groups, sections, stages, forms |
| `flatten.dfy` | `Flatten` | `flattenFields` |
| `values.dfy` | `ValueTree` | the value tree, `getInitialValues`, the edit's one-slot update |
| `title_case.dfy` | `TitleCase` | `toPerfectTitleCase` and its specification |
| `evaluator.dfy` | `Evaluator` | the executable configuration strings as oracles |
| `computed.dfy` | `Computed` | `updateCalculatedFields` over every stage |
| `validate.dfy` | `Validator` | `validateStage` |
| `options.dfy` | `DependentOptions` | the select's option list |
| `wizard.dfy` | `Wizard` | the stage state machine and the `DynamicQuoteForm` component |
| `context.dfy` | `AppContext` | `appReducer` |
| `contact_form.dfy` | `ContactForm` | the contact page |
| `quote_form.dfy` | `QuoteForm` | the quote page |

Imperative parts are methods: the initial-value walk, flattening, the computed-field pass, validation, the handlers
and the component classes. Each is proved equal to a specification function, and the properties are lemmas about
those functions.

### Behaviour of the code that the model keeps

- **A throw is not caught.** Only two failures are caught: an expression that fails in `evaluateValueCalculation`
  (which then gives `''`), and a validation predicate body that fails to compile (the rule then passes). A predicate
  that throws when called, and a Regex rule whose pattern is invalid, throw out of `validateStage`. The model makes
  these a `Crashed` outcome, and the handler then changes nothing (`RuleVerdictSpec`, `RulesCrashIffThrow`). The same
  holds for writing a computed child into a group slot that holds a non-empty string (`ChildrenPrimitiveCrash`),
  which throws in strict-mode JavaScript.
- **The computed-field pass is not idempotent.** It makes one pass in document order, so a field that reads a later
  computed field sees the old value. `RecomputeNotIdempotent` exhibits a configuration where a second pass changes
  the tree.
- **A group's computed children are evaluated on the root tree** and written into the group's object.
- **An empty `valueCalculation` is skipped** at the call site rather than evaluated to `''`.
- **A string in a group slot has index properties.** `{...values[g]}` copies a string's characters under `"0"`, `"1"`,
  ..., and `values[g][k]` reads them, so a dotted edit or a dependency on such a slot sees them (`StringSlotProps`,
  `DottedChangeOnString`).
- **The engine tells node kinds apart by duck typing** (a node with `fields` and no `type` is a section). It reads a
  field's `type` as its control kind, and reads the stage list from `formGroup`. The declared types say otherwise.
  The schema follows the engine (`RawKind`, `DeclaredSectionTagIsAField`). The engine has two section tests:
  `'fields' in node && !('type' in node)` in `getInitialValues` and the computed-field pass, and
  `node.fields && !node.type` in `flattenFields` and the renderer. They disagree on a node whose `type` is present
  but falsy (such as `''`), or whose `fields` is present but falsy. `RawKind` is the first test; see "## Left out".

## Model

| member | source | states |
|---|---|---|
| Schema.ParseInputType | src/utilities/types.ts:13-33 | a parsed input-type name prints back as the same name |
| Schema.InputTypeNamesRoundTrip | src/utilities/types.ts:13-33 | every input type is recovered from its name, so the seventeen names are distinct |
| Schema.TagsDistinct | src/utilities/types.ts:4-11 | the node tags have distinct literal names, one of field, group or section for a node |
| Schema.RawKind | src/components/DynamicQuoteForm.tsx:10-13 | the engine's kind test: section exactly when the node has children and no `type`, group exactly when it has children and `type` is `group` |
| Schema.DeclaredSectionTagIsAField | src/components/DynamicQuoteForm.tsx:242 | a node carrying the declared `type: 'section'` is treated as a field, not a section |
| Flatten.Flat | src/components/DynamicQuoteForm.tsx:239-250 | the flattened list contains no section |
| Flatten.FlatOne | src/components/DynamicQuoteForm.tsx:241-247 | one node's contribution contains no section |
| Flatten.FlatAppend | src/components/DynamicQuoteForm.tsx:239-250 | flattening distributes over concatenation, so document order is kept |
| Flatten.FlatNoSections | src/components/DynamicQuoteForm.tsx:239-250 | a list without sections flattens to itself |
| Flatten.FlatIsPromotion | src/components/DynamicQuoteForm.tsx:239-250 | for sections holding no sections, flattening is exactly each section replaced in place by its children |
| Flatten.FlattenFields | src/components/DynamicQuoteForm.tsx:239-250 | the loop with recursive calls computes the flattening |
| ValueTree.RootNodes | src/components/DynamicQuoteForm.tsx:23-25 | the nodes the initial walk writes at the root contain no section |
| ValueTree.InitNodesFlat | src/components/DynamicQuoteForm.tsx:10-12 | the walk over a list is the walk over its flattening: a section writes its children into the same parent |
| ValueTree.InitStagesRoot | src/components/DynamicQuoteForm.tsx:23-25 | walking every stage in turn is one walk over all root nodes in document order |
| ValueTree.InitFlatKeys | src/components/DynamicQuoteForm.tsx:9-21 | the walk adds exactly the nodes' names as keys |
| ValueTree.InitFlatKeeps | src/components/DynamicQuoteForm.tsx:9-21 | a key no node names keeps its value |
| ValueTree.InitFlatLast | src/components/DynamicQuoteForm.tsx:14-19 | a node whose name no later node reuses ends with its default |
| ValueTree.GroupDefaultsKeys | src/components/DynamicQuoteForm.tsx:15-17 | a group's object gets exactly its children's names as keys |
| ValueTree.GroupDefaultsAt | src/components/DynamicQuoteForm.tsx:16 | with distinct child names each child holds `defaultValue` or `''` |
| ValueTree.InitialValuesSpec | src/components/DynamicQuoteForm.tsx:6-27 | the initial tree has one key per root field or group, and each holds its default or its group's object when names are distinct |
| ValueTree.GroupInitialObject | src/components/DynamicQuoteForm.tsx:13-17 | a group's initial object is keyed by its children, each holding its default |
| ValueTree.ProcessFields | src/components/DynamicQuoteForm.tsx:8-22 | the in-place walk computes the specified tree |
| ValueTree.GetInitialValues | src/components/DynamicQuoteForm.tsx:6-27 | the walk over all stages computes the initial tree, keyed by the root names |
| ValueTree.DottedChangeTouchesOneSlot | src/components/DynamicQuoteForm.tsx:363-371 | a dotted edit sets `values[g][s]`, keeps the siblings under `g` and every other top-level key |
| ValueTree.BareChangeTouchesOneKey | src/components/DynamicQuoteForm.tsx:372-374 | a bare edit sets that key and keeps every other key |
| TitleCase.CapitalizeAll | src/components/DynamicQuoteForm.tsx:40 | each word is capitalised, one output word per input word |
| TitleCase.FoldSplitCamel | src/components/DynamicQuoteForm.tsx:32 | splitting humps inserts only spaces |
| TitleCase.FoldCollapse | src/components/DynamicQuoteForm.tsx:35 | collapsing white space keeps every other character |
| TitleCase.CollapseNoDoubleBlanks | src/components/DynamicQuoteForm.tsx:35 | after collapsing, no two blanks are adjacent |
| TitleCase.NormalizeSingleSpaced | src/components/DynamicQuoteForm.tsx:32-35 | the normalised string has no leading, trailing or doubled space and no other white space |
| TitleCase.SplitSingleSpaced | src/components/DynamicQuoteForm.tsx:39 | splitting a single-spaced string gives non-empty words without white space |
| TitleCase.CapitalizeTitleWord | src/components/DynamicQuoteForm.tsx:40 | a capitalised word has an upper-case first letter and a lower-case rest |
| TitleCase.FoldJoinCapitalized | src/components/DynamicQuoteForm.tsx:38-41 | capitalising and joining keeps the words' characters up to case |
| TitleCase.SplitCamelIsHumps | src/components/DynamicQuoteForm.tsx:32 | the hump split keeps every character and puts one space between `s[i]` and `s[i+1]` exactly when an ASCII lower-case letter is followed by an upper-case one, and nowhere else |
| TitleCase.Words | src/components/DynamicQuoteForm.tsx:35-39 | the maximal runs of non-white-space characters, each non-empty and blank-free |
| TitleCase.CollapseWords | src/components/DynamicQuoteForm.tsx:35 | from a word boundary, collapsing white space gives the runs joined by single spaces, plus one space when the string ends in white space |
| TitleCase.TrimUnique | src/components/DynamicQuoteForm.tsx:35 | trimming strips exactly the white-space padding around a string that starts and ends with other characters |
| TitleCase.CollapseRuns | src/components/DynamicQuoteForm.tsx:35 | collapsing and trimming any string gives its maximal non-blank runs joined by single spaces |
| TitleCase.NormalizeIsWords | src/components/DynamicQuoteForm.tsx:32-35 | the string that is split is the runs of the hump-split input joined by single spaces |
| TitleCase.TitleWordsAreRuns | src/components/DynamicQuoteForm.tsx:29-42 | for non-blank input the words are exactly its maximal non-blank runs, each also broken at every lower→upper hump, and capitalised |
| TitleCase.TitleCaseSpec | src/components/DynamicQuoteForm.tsx:29-42 | the result is empty exactly for blank input; otherwise it is the input's non-blank runs, broken at every lower→upper hump and nowhere else, capitalised and joined by single spaces; every word is in title case, and every non-blank character is kept in order, up to case |
| Evaluator.EvaluateValueCalculation | src/components/DynamicQuoteForm.tsx:45-56 | an empty expression, or one that fails, yields `''`; otherwise the expression's result |
| Computed.PassAppend | src/components/DynamicQuoteForm.tsx:378-388 | the pass over a concatenation is the pass over each part in turn, stopping at a throw |
| Computed.PassFlat | src/components/DynamicQuoteForm.tsx:379-381 | sections are transparent to the pass |
| Computed.RecomputeIsDocumentOrder | src/components/DynamicQuoteForm.tsx:390-392 | the pass over every stage is one pass over all root nodes in document order |
| Computed.ChildrenFrame | src/components/DynamicQuoteForm.tsx:382-386 | a group's pass changes only that group's computed children |
| Computed.PassFrame | src/components/DynamicQuoteForm.tsx:377-389 | keys no computed field or group of the list names are unchanged |
| Computed.GroupFrame | src/components/DynamicQuoteForm.tsx:382-384 | a group's pass changes only its own slot and creates the object when the slot is falsy |
| Computed.FieldStep | src/components/DynamicQuoteForm.tsx:385-386 | a computed field gets its expression's value, `''` when it fails; other fields are untouched |
| Computed.ChildrenNoComputed | src/components/DynamicQuoteForm.tsx:382-387 | a group without computed children leaves the tree as it is |
| Computed.ChildrenOnObject | src/components/DynamicQuoteForm.tsx:383-386 | writing into an object slot never throws |
| Computed.CrashNeedsComputedChild | src/components/DynamicQuoteForm.tsx:377-389 | the pass can throw only where a group has a computed child |
| Computed.GroupCrash | src/components/DynamicQuoteForm.tsx:383-386 | with a truthy non-object slot, the group's pass throws exactly when it has a computed child; an object or falsy slot never throws |
| Computed.ChildrenPrimitiveCrash | src/components/DynamicQuoteForm.tsx:384-386 | a computed child written into a primitive slot throws |
| Computed.RecomputeNotIdempotent | src/components/DynamicQuoteForm.tsx:390-392 | a field copying a later computed field makes a second pass differ from the first |
| Computed.UpdateCalculatedFields | src/components/DynamicQuoteForm.tsx:377-389 | the loop with recursion computes the specified pass |
| Computed.UpdateGroup | src/components/DynamicQuoteForm.tsx:382-384 | the group branch computes the specified group pass |
| Computed.RecomputeAll | src/components/DynamicQuoteForm.tsx:390-392 | the loop over stages computes the pass, equal to the document-order pass |
| Validator.RuleVerdictSpec | src/components/DynamicQuoteForm.tsx:414-447 | per rule type: throws exactly for a bad pattern on a truthy value or a throwing predicate; Required fails exactly on `''`; length and value bounds with `\|\| 0` and `\|\| Infinity`; a predicate that fails to compile and an unknown type pass |
| Validator.ApplyRulesSnoc | src/components/DynamicQuoteForm.tsx:414 | rules run in list order |
| Validator.SomeRuleThrowsSnoc | src/components/DynamicQuoteForm.tsx:414-447 | some rule of a longer list throws exactly when one of the prefix or the last does |
| Validator.RulesCrashIffThrow | src/components/DynamicQuoteForm.tsx:415-446 | the rule loop throws exactly when some rule throws |
| Validator.LastRuleWins | src/components/DynamicQuoteForm.tsx:413-448 | without a throw, the key ends with the message of the last failing rule, or as it was |
| Validator.CheckFieldSpec | src/components/DynamicQuoteForm.tsx:409-449 | a field crashes exactly when a rule throws; otherwise only its key changes, to the last failing rule's message, else the required message when blank |
| Validator.CheckFieldKeys | src/components/DynamicQuoteForm.tsx:409-449 | a field adds at most its own key and removes none |
| Validator.CheckFieldsKeys | src/components/DynamicQuoteForm.tsx:402-407 | a group's children add only their own names |
| Validator.PrefixedKeys | src/components/DynamicQuoteForm.tsx:405-407 | the group's errors are re-keyed `group.child` |
| Validator.ChildPathsMember | src/components/DynamicQuoteForm.tsx:406 | each child name gives its dotted path |
| Validator.ErrorKeysArePaths | src/components/DynamicQuoteForm.tsx:400-453 | a stage's error keys are field names or `group.child` paths of that stage |
| Validator.CheckNodesGrows | src/components/DynamicQuoteForm.tsx:400-453 | validation never drops an error already recorded |
| Validator.RequiredBlankReported | src/components/DynamicQuoteForm.tsx:410-412 | a blank required field of the stage always has an error |
| Validator.RequiredBlankFrom | src/components/DynamicQuoteForm.tsx:410-412 | the same, from any starting map and scope |
| Validator.RequiredGate | src/components/DynamicQuoteForm.tsx:410-411 | a required rule-less field yields exactly `<label> is required.` when blank and nothing otherwise |
| Validator.GroupChildKey | src/components/DynamicQuoteForm.tsx:403-411 | in any stage, a blank required child of any group is reported under `group.child` whenever validation completes, whatever the other fields and rules |
| Validator.CheckFieldsNoRules | src/components/DynamicQuoteForm.tsx:403-404 | children without rules never throw |
| Validator.GroupChildFrom | src/components/DynamicQuoteForm.tsx:403-411 | the same from any scope and starting error map |
| Validator.CheckFieldsReportsBlank | src/components/DynamicQuoteForm.tsx:404-411 | a blank required child is reported under its own name whenever the group's check completes, whatever the other children's rules |
| Validator.CheckFieldsGrows | src/components/DynamicQuoteForm.tsx:404 | a group's children never drop a recorded error |
| Validator.ValidateField | src/components/DynamicQuoteForm.tsx:409-449 | the rule loop computes the specified field check |
| Validator.ValidateGroup | src/components/DynamicQuoteForm.tsx:404 | the recursive call for a group computes the specified child check |
| Validator.ValidateStage | src/components/DynamicQuoteForm.tsx:400-453 | the loop computes the stage's error map, whose keys are paths of the stage |
| ValueTree.NatToDecimal | src/components/DynamicQuoteForm.tsx:115-116 | a number or index used as a property name is a non-empty string of digits |
| ValueTree.NatToDecimalInjective | src/components/DynamicQuoteForm.tsx:115-116 | distinct numbers select distinct entries |
| ValueTree.StringSlotProps | src/components/DynamicQuoteForm.tsx:366-369 | a string slot has, under the decimal form of each index, the character there, and no other own enumerable property |
| ValueTree.DottedChangeOnString | src/components/DynamicQuoteForm.tsx:363-371 | a dotted edit of a slot holding a string keeps the string's characters under their indices beside the new value |
| DependentOptions.ControllingValue | src/components/DynamicQuoteForm.tsx:102-114 | the controlling value is `''` without a dependency and otherwise `''` or truthy |
| DependentOptions.ResolveOptions | src/components/DynamicQuoteForm.tsx:98-118 | a static list as is; for a table, the entry under the truthy controlling value, else nothing |
| DependentOptions.CountryDrivesState | src/components/DynamicQuoteForm.tsx:98-118 | after the slot update that sets the controlling field to a string, the select offers that string's entry, nothing for `''` or a missing entry |
| DependentOptions.GroupScopedDependency | src/components/DynamicQuoteForm.tsx:104-112 | inside a group a bare dependency is read from the group, a dotted one from the root |
| DependentOptions.DottedDependencyFollowsEdit | src/components/DynamicQuoteForm.tsx:104-106 | a dotted dependency reads the slot a dotted edit of the same path writes |
| Wizard.ShownErrors | src/components/DynamicQuoteForm.tsx:516 | errors are hidden exactly while the current stage is untouched |
| Wizard.InitialState | src/components/DynamicQuoteForm.tsx:350-359 | the session starts on stage 0 with every stage untouched and no error shown |
| Wizard.TransitionsKeepValid | src/components/DynamicQuoteForm.tsx:455-493 | every handler keeps the index on a stage and a status for every stage |
| Wizard.RequiredFieldBlocksNext | src/components/DynamicQuoteForm.tsx:461-466 | a blank required field keeps the index, marks the stage incomplete and reports the field |
| Wizard.NextAdvancesOnlyWhenClean | src/components/DynamicQuoteForm.tsx:455-486 | with errors: same index, stage `incomplete`, the whole error map stored; without errors: errors cleared, stage `complete`, and the index one on except on the last stage, where it stays; a throwing validation changes nothing; no other stage's status and no value changes, and the index moves only when the stage is clean |
| Wizard.EditDrivesDependentSelect | src/components/DynamicQuoteForm.tsx:359-397 | after a full edit (slot update and completed computed-field pass) of a top-level controlling field that no computed field or group names, the dependent select offers the chosen string's entry, nothing for `''` or a missing entry |
| Wizard.StatusNeverReverts | src/components/DynamicQuoteForm.tsx:455-493 | no handler sets a stage back to untouched |
| Wizard.JumpRestriction | src/components/DynamicQuoteForm.tsx:324 | a click on the current or an untouched stage does nothing; otherwise only the index changes |
| Wizard.EditKeepsStatus | src/components/DynamicQuoteForm.tsx:361-398 | an edit changes neither the index nor any status, and stores the recomputed tree |
| Wizard.NoSkipsInitially | src/components/DynamicQuoteForm.tsx:350-359 | initially no stage is skipped |
| Wizard.MarkKeepsPrefix | src/components/DynamicQuoteForm.tsx:465-470 | marking the stage after the attempted prefix keeps the attempted stages a prefix |
| Wizard.NoSkipsAfterNext | src/components/DynamicQuoteForm.tsx:455-487 | with distinct stage names, the forward handler keeps the no-skip invariant |
| Wizard.NoSkipsAfterPrev | src/components/DynamicQuoteForm.tsx:473 | going back keeps the no-skip invariant |
| Wizard.NoSkipsAfterClick | src/components/DynamicQuoteForm.tsx:324 | a guarded jump keeps the no-skip invariant |
| Wizard.NoSkipsAfterChange | src/components/DynamicQuoteForm.tsx:361-398 | an edit keeps the no-skip invariant |
| Wizard.EarlierStagesAttempted | src/components/DynamicQuoteForm.tsx:324 | under the invariant, every stage before the current one has been submitted at least once |
| Wizard.DynamicQuoteForm.constructor | src/components/DynamicQuoteForm.tsx:350-359 | the component's state is the initial session |
| Wizard.DynamicQuoteForm.HandleSubmit | src/components/DynamicQuoteForm.tsx:474-487 | the last stage's submit updates the state as specified |
| Wizard.DynamicQuoteForm.HandleNextOrSubmit | src/components/DynamicQuoteForm.tsx:455-472 | the forward handler updates the state as specified |
| Wizard.DynamicQuoteForm.HandlePrev | src/components/DynamicQuoteForm.tsx:473 | the back handler moves one stage back |
| Wizard.DynamicQuoteForm.ClickStage | src/components/DynamicQuoteForm.tsx:324 | the guarded progress-bar click updates the state as specified |
| Wizard.DynamicQuoteForm.HandleChange | src/components/DynamicQuoteForm.tsx:361-398 | the edit handler updates values and errors as specified |
| Wizard.DynamicQuoteForm.RenderedErrors | src/components/DynamicQuoteForm.tsx:516 | an untouched stage renders no error |
| AppContext.AppReducer | src/context.tsx:9-21 | each known action replaces only its own slot; any other action leaves the state unchanged |
| AppContext.ReplayIsLastWrite | src/context.tsx:13-20 | after any sequence of actions each slot holds the last payload of its own type |
| AppContext.ReducerIdempotent | src/context.tsx:13-20 | dispatching an action twice equals dispatching it once |
| AppContext.DifferentKindsCommute | src/context.tsx:14-17 | actions of different types commute |
| ContactForm.SetFieldReadBack | src/components/ContactForm.tsx:12-19 | the reducer sets the named key and leaves the other two unchanged |
| ContactForm.MatchesEmail | src/components/ContactForm.tsx:34 | the one-pass test decides the email pattern exactly |
| ContactForm.EmailShapeNotBlank | src/components/ContactForm.tsx:32-36 | a matching email is never blank, so the two email messages exclude each other |
| ContactForm.EmailShapeExamples | src/components/ContactForm.tsx:34 | `a@b.c` and `a@b@c.d` match; `a@b`, `@b.c` and `a b@c.d` do not |
| ContactForm.ContactErrorsInOrder | src/components/ContactForm.tsx:29-43 | the error map is the three checks applied in turn |
| ContactForm.Validate | src/components/ContactForm.tsx:29-43 | the validator computes the specified per-key messages |
| ContactForm.ContactValidIff | src/components/ContactForm.tsx:29-43 | no error exactly when the name is non-blank, the email matches and the phone is non-blank and matches |
| ContactForm.InitialContactErrors | src/components/ContactForm.tsx:14-18 | the empty record reports all three fields as required |
| ContactForm.ContactPage.constructor | src/components/ContactForm.tsx:12-22 | the page starts with the empty record and no errors |
| ContactForm.ContactPage.HandleChange | src/components/ContactForm.tsx:24-27 | an input change applies the reducer |
| ContactForm.ContactPage.HandleSubmit | src/components/ContactForm.tsx:45-55 | errors are stored, or cleared and the record dispatched as the contact details, exactly when there are none |
| QuoteForm.InitialWellTyped | src/components/QuoteForm.tsx:34-49 | the initial form has every key with its declared shape |
| QuoteForm.HandlersKeepWellTyped | src/components/QuoteForm.tsx:66-87 | every handler keeps that shape |
| QuoteForm.SelectChangeOneKey | src/components/QuoteForm.tsx:66-68 | a select change sets its key to the choice or `''` and keeps every other key |
| QuoteForm.JoinNonEmpty | src/components/QuoteForm.tsx:76 | joining gives `''` only for no values or one empty value |
| QuoteForm.CarrierRoundTrip | src/components/QuoteForm.tsx:75-78 | the stored carriers display as the chosen list when no value holds a comma and the selection is not the single empty value (`['']` joins to `''`, which displays nothing); a non-list shows nothing |
| QuoteForm.CheckStep | src/components/QuoteForm.tsx:89-105 | each check adds exactly its key's message |
| QuoteForm.ErrorsOnAll | src/components/QuoteForm.tsx:89-105 | the thirteen checks cover every key but `additionalServices` |
| QuoteForm.CheckKey | src/components/QuoteForm.tsx:91-103 | one check line computes its key's message |
| QuoteForm.Validate | src/components/QuoteForm.tsx:89-105 | the validator computes the specified error map |
| QuoteForm.QuoteValidIff | src/components/QuoteForm.tsx:89-105 | no error exactly when every choice is made, the places are non-blank, the count is at least 1, and weight and volume are positive (zero is rejected) |
| QuoteForm.InitialQuoteErrors | src/components/QuoteForm.tsx:34-49 | the initial form fails every check but the container count |
| QuoteForm.AdditionalServicesUnchecked | src/components/QuoteForm.tsx:89-105 | additional services are never checked and never change the errors |
| QuoteForm.QuotePage.constructor | src/components/QuoteForm.tsx:34-50 | the page starts with the initial form and no errors |
| QuoteForm.QuotePage.HandleSelectChange | src/components/QuoteForm.tsx:66-68 | a select change as specified |
| QuoteForm.QuotePage.HandleMultiSelectChange | src/components/QuoteForm.tsx:71-73 | the services change as specified |
| QuoteForm.QuotePage.HandleCarrierChange | src/components/QuoteForm.tsx:75-78 | the carrier change as specified |
| QuoteForm.QuotePage.HandleChange | src/components/QuoteForm.tsx:81-87 | a number input stores `''`, a number or NaN; a text input stores the string |
| QuoteForm.QuotePage.HandleSubmit | src/components/QuoteForm.tsx:107-117 | the stored errors are the validator's map, empty when the form passes |
| Text.Trim | src/components/ContactForm.tsx:31 | trimming gives `''` exactly for an all-white-space string |
| Text.TrimPadding | src/components/DynamicQuoteForm.tsx:35 | a string is its trimmed form padded with white space only |
| Text.Split | src/components/DynamicQuoteForm.tsx:105 | the parts hold no separator, and there is one part exactly when there is no separator |
| Text.SplitJoin | src/components/QuoteForm.tsx:273 | splitting the join of a non-empty list of separator-free values gives the values back (the empty list joins to `''`, which splits to `['']`) |
| Text.JoinSplit | src/components/DynamicQuoteForm.tsx:38-41 | joining the split of a string gives the string back |

## Left out

- Rendering (JSX, class names, icons, chevrons, labels, placeholders and react-select wiring) is presentation. Only the progress bar's click guard and the rule for which errors are shown carry logic, and both are modelled.
- The configuration strings run by `new Function` and the regular-expression engine are uninterpreted functions of an `Env`. `Number()` parsing on the quote page is a `Parser`.
- `alert`, `console`, `navigate` and the quote page's redirect when there are no contact details are I/O and side effects.
- The DOM `onInput` validity reset and the render-time display fallback chain `value || defaultValue || evaluate(...)` are browser and presentation behaviour.
- `createContext` and `AppProvider` are React plumbing. Each handler is one sequential state update. When stage validation throws inside `handleChange`, the model keeps the already-issued `setValues` and drops `setStageErrors`.
- Wizard.DynamicQuoteForm.HandleChange: the shallow copy in `handleChange` shares group objects with the previous tree, and computed children are written into that shared object, so the old tree changes too. The model works on values, so this aliasing is not captured.
- ValueTree: numbers in the value tree are integers. Fractional computed values and floating-point arithmetic are not modelled.
- TitleCase.TitleCaseSpec: upper and lower casing covers ASCII letters only, whereas JavaScript maps all of Unicode.
- ValueTree.NatToDecimal: a number used as an option key is written in integer decimal form only, with no fractional or exponent form.
- QuoteForm.QuoteValidIff: holds for forms of the shape the handlers keep (`WellTyped`). `Number()` of a list slot is treated as NaN.
- ContactForm.ContactPage.HandleChange: an input name other than the three keys would add a property in the source. The model leaves the record unchanged, since no input has such a name.
- Field properties the engine never reads for logic are not modelled: placeholder, hidden label, hidden, read-only, icons, step, multi-select, disabled dependencies. The same goes for the stage-name display flag `showformStageName`.
- Schema.RawKind: it is the `'fields' in node && !('type' in node)` test. `flattenFields` and the renderer use `node.fields && !node.type`, which also takes a node with a present but falsy `type` (such as `''`) for a section, and a node with a present but falsy `fields` for a field. The model has one node kind per node, so it assumes configurations where the two tests agree.
- ValueTree.Props: a value's properties are its own enumerable ones only. A string's `length`, and the methods every value inherits from its prototype, are not modelled, so a dependency or a child name such as `length` reads as `undefined`.
- Validator.RuleVerdict: MinLength and MaxLength compare the number of characters (code points). JavaScript's `length` counts UTF-16 code units, so a character outside the Basic Multilingual Plane counts once here and twice in the source.
- Wizard.DynamicQuoteForm.constructor: it requires at least one stage. With an empty `formGroup` the source mounts and then throws while rendering (`form[0]` is undefined). That crash is not modelled.
