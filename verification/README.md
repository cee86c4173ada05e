# MUI X decision rules and ledgers, in Dafny

This project models seven small pieces of the MUI X repository and proves what they promise.

- **BulkEditing**: the unsaved-changes ledger of the data grid's bulk-editing recipe. Per row id it keeps the pending row and a write-once snapshot of the row before its first change. It offers discard-one, delete, edit, discard-all and save, and it logs the calls to `apiRef.current.updateRows`.
- **CalendarHeader**: the date pickers' calendar header. It covers which view a click on the month label requests, when the header renders nothing, when the switch-view button shows, and the next/previous month requests.
- **MobileRangePicker**: the mobile date-range picker hook. It covers the locale-text merge, the field defaults, the hidden-toolbar flag, the `aria-labelledby` id list and the mobile paper override.
- **AxisTooltip**: the charts' axis tooltip. It chooses the x or y axis, finds the used axis id and the relevant axis, and filters the cartesian series attached to it, type by type in `seriesOrder` order.
- **GridEventsDoc**: the grid events documentation builder. It merges the `GridEventLookup` events of the three grid packages into one dictionary, links the premium grid's listener props to their events, and lists the entries sorted by name.
- **ComponentDocs**: the data grid's component-info provider for the API docs. It covers the component record and its error case, the slot interface name, the skip rule for internal components, the two import-path regular expressions (modelled with their backtracking order), the re-export package list and the import lines.
- **PopularFeatures**: the plan column of the popular-features demo. It covers the chip properties per plan, the plan rank and comparator, and the feature rows.

Three helper modules are shared:
- `Wrappers`: `Option` and `Result`.
- `Text`: the JavaScript string methods the core uses, namely `indexOf`, `replace` with a string pattern and `join(' ')`. It also holds `split(' ')`, which no core file calls: it is the inverse that the round-trip lemma `Text.SplitJoin` is stated with.
- `ObjectKeys`: a JavaScript dictionary object as a `map` plus the insertion order of its keys, which is the order `Object.values` lists the values in.

State that the source updates in place is a class. In `BulkEditing.UnsavedChanges`, the two dictionaries are `map` fields with their shared key order, and the grid's `updateRows` calls are a log field.

Two source loops are methods whose loop invariants tie the accumulator to a specification function: `AxisTooltip.RelevantSeries` and `GridEventsDoc.BuildGridEventsDocumentation`. Two sequences of pushes with no loop are methods whose `ensures` equates the result with a specification function: `MobileRangePicker.ComputeLabelledById` and `ComponentDocs.ComputeReExportPackages`. Properties are proved about those functions.

Behaviour kept exactly as the code has it:
- With `axisData.x === null`, the expression `(axisData.x && axisData.x.index) !== undefined` is true. The x axis is then chosen and `dataIndex` is `null`. `AxisTooltip.IsXAxis` states this case explicitly.
- With an empty `views` list, the calendar header's toggle requests `views[0]`, which is `undefined`.
- An event name that only some projects list keeps the description and params from the first project that declares it. Any later project, even one without a property-signature declaration, is appended to `projects`.
- A `pkg` group that the path regular expressions leave undefined is printed as `undefined` by the template literal.

## Model

| member | source | states |
|---|---|---|
| BulkEditing.MarkedForDelete | docs/data/data-grid/recipes-editing/BulkEditingNoSnap.js:67-70 | the copy is a pending delete with the same id and cells |
| ObjectKeys.Values | docs/data/data-grid/recipes-editing/BulkEditingNoSnap.js:99-117 | `Object.values` lists, at position i, the value of the i-th key in the key order |
| ObjectKeys.ValuesListEachOnce | docs/data/data-grid/recipes-editing/BulkEditingNoSnap.js:99-117 | over an insertion order, `Object.values` lists every stored value and nothing else, one per key |
| ObjectKeys.Without | docs/data/data-grid/recipes-editing/BulkEditingNoSnap.js:56-57 | `delete` removes exactly that key from the key order; an absent key leaves it unchanged |
| ObjectKeys.WithoutDistinct | docs/data/data-grid/recipes-editing/BulkEditingNoSnap.js:56-57 | after a `delete`, the key order still lists each key once |
| ObjectKeys.DeleteKeepsOrder | docs/data/data-grid/recipes-editing/BulkEditingNoSnap.js:56-57 | after `delete`, the shortened key order is an insertion order of the shortened object |
| ObjectKeys.Inserted | docs/data/data-grid/recipes-editing/BulkEditingNoSnap.js:67-72 | assigning a key adds it to the key order, last when it is new; the order still lists each key once |
| ObjectKeys.AssignKeepsOrder | docs/data/data-grid/recipes-editing/BulkEditingNoSnap.js:67-72 | after an assignment, the extended key order is an insertion order of the updated object |
| BulkEditing.LedgerValuesListEachOnce | docs/data/data-grid/recipes-editing/BulkEditingNoSnap.js:99-117 | `Object.values` of either ledger object, over the shared key order, lists each of its rows once |
| BulkEditing.PendingDeletes | docs/data/data-grid/recipes-editing/BulkEditingNoSnap.js:116-118 | the filter keeps exactly the rows whose `_action` is `'delete'` |
| BulkEditing.PendingDeletesNonEmpty | docs/data/data-grid/recipes-editing/BulkEditingNoSnap.js:116-121 | the save batch is non-empty exactly when some pending entry is a delete |
| BulkEditing.ChangeKeepsInvariant | docs/data/data-grid/recipes-editing/BulkEditingNoSnap.js:66-94 | an edit or a delete keeps the ledger invariant: same ids in both objects, one shared insertion order, rows under their own ids, flag set |
| BulkEditing.DiscardKeepsInvariant | docs/data/data-grid/recipes-editing/BulkEditingNoSnap.js:51-60 | discarding one row keeps the ledger invariant, the flag recomputed from the remaining keys |
| BulkEditing.UnsavedChanges.CanDiscardRow | docs/data/data-grid/recipes-editing/BulkEditingNoSnap.js:51 | the per-row discard action is disabled exactly when the id has no pending entry |
| BulkEditing.UnsavedChanges.constructor | docs/data/data-grid/recipes-editing/BulkEditingNoSnap.js:34-39 | both maps empty, both flags false, no `updateRows` call yet; the invariant holds |
| BulkEditing.UnsavedChanges.RowClassName | docs/data/data-grid/recipes-editing/BulkEditingNoSnap.js:182-191 | `row--removed` exactly for a pending delete, `row--edited` exactly for another pending entry, `''` exactly when the id has none |
| BulkEditing.UnsavedChanges.DiscardRow | docs/data/data-grid/recipes-editing/BulkEditingNoSnap.js:51-60 | enabled exactly when the id has a pending entry; then the snapshot is re-submitted, the id leaves both maps, other ids and `isSaving` are untouched, `hasUnsavedRows` is "pending map non-empty"; the invariant is kept |
| BulkEditing.UnsavedChanges.DeleteRow | docs/data/data-grid/recipes-editing/BulkEditingNoSnap.js:66-75 | the pending entry becomes the row marked for deletion, the snapshot is written only if absent, `hasUnsavedRows` is set, the row is re-submitted, the class becomes `row--removed`; the invariant is kept |
| BulkEditing.UnsavedChanges.ProcessRowUpdate | docs/data/data-grid/recipes-editing/BulkEditingNoSnap.js:85-94 | returns `newRow` unchanged, stores it as the pending entry, writes the snapshot `oldRow` only if absent, sets the flag, calls nothing; the invariant is kept |
| BulkEditing.UnsavedChanges.DiscardAll | docs/data/data-grid/recipes-editing/BulkEditingNoSnap.js:96-105 | submits exactly the stored snapshots in the order their rows were first changed, then both objects are empty and the flag is false |
| BulkEditing.UnsavedChanges.StartSave | docs/data/data-grid/recipes-editing/BulkEditingNoSnap.js:110 | only `isSaving` changes, to true; the invariant is kept |
| BulkEditing.UnsavedChanges.FinishSave | docs/data/data-grid/recipes-editing/BulkEditingNoSnap.js:115-127 | submits the pending deletes in one call exactly when there is at least one, then clears both maps and both flags |
| BulkEditing.UnsavedChanges.SaveChanges | docs/data/data-grid/recipes-editing/BulkEditingNoSnap.js:107-127 | the whole save: only deletes are submitted, once and only if any, and the ledger ends empty with both flags false |
| BulkEditing.UnsavedChanges.CanSave | docs/data/data-grid/recipes-editing/BulkEditingNoSnap.js:136-139 | the Save button is usable exactly when something is pending and no save is in flight, where the loading button is disabled |
| BulkEditing.UnsavedChanges.CanDiscardAll | docs/data/data-grid/recipes-editing/BulkEditingNoSnap.js:145-147 | "Discard all changes" is usable exactly when something is pending and no save is in flight |
| BulkEditing.UnsavedChanges.ClickSave | docs/data/data-grid/recipes-editing/BulkEditingNoSnap.js:136-139 | a click saves exactly when the button is enabled, and otherwise changes nothing |
| BulkEditing.UnsavedChanges.ClickDiscardAll | docs/data/data-grid/recipes-editing/BulkEditingNoSnap.js:145-147 | a click discards everything exactly when the button is enabled, and otherwise changes nothing |
| BulkEditing.DiscardAfterTwoEdits | docs/data/data-grid/recipes-editing/BulkEditingNoSnap.js:51-94 | after two edits of a row, discarding it submits the row as it was before the first edit: the snapshot is never overwritten |
| BulkEditing.EditThenDelete | docs/data/data-grid/recipes-editing/BulkEditingNoSnap.js:66-94 | an edit then a delete of the same row leaves one pending deletion and one re-render submitted |
| BulkEditing.SaveAfterEditAndDelete | docs/data/data-grid/recipes-editing/BulkEditingNoSnap.js:66-127 | edit, delete, save submits the edited row (to re-render it) and then that row marked for deletion, and nothing else |
| BulkEditing.EditTwoRowsThenFirstAgain | docs/data/data-grid/recipes-editing/BulkEditingNoSnap.js:85-94 | after edits of a, b, a the key order is a, b and each snapshot is the row before its first edit |
| BulkEditing.DiscardAllInFirstEditOrder | docs/data/data-grid/recipes-editing/BulkEditingNoSnap.js:85-105 | edits of a, then b, then a again, then discard-all submit a and b as they were before their first edits, a first: a key keeps the place of its first insertion |
| CalendarHeader.At | packages/x-date-pickers/src/PickersCalendarHeader/PickersCalendarHeader.tsx:203-207 | `views[i]` is defined exactly for an index in range, and is the view there |
| CalendarHeader.IndexOf | packages/x-date-pickers/src/PickersCalendarHeader/PickersCalendarHeader.tsx:206 | `indexOf` is -1 exactly when absent; otherwise the first position holding the view |
| CalendarHeader.FindOther | packages/x-date-pickers/src/PickersCalendarHeader/PickersCalendarHeader.tsx:203 | `find` gives `undefined` exactly when every view is the current one; otherwise the first other view |
| CalendarHeader.ToggleView | packages/x-date-pickers/src/PickersCalendarHeader/PickersCalendarHeader.tsx:197-209 | nothing happens exactly with one view, no `onViewChange` or `disabled`; two views give the other view, falling back to `views[0]`; three or more alternate between the first two; an empty list requests `undefined` |
| CalendarHeader.ToggleRequestsListedView | packages/x-date-pickers/src/PickersCalendarHeader/PickersCalendarHeader.tsx:201-208 | whenever toggle fires on a non-empty list, it requests a defined view that is in `views` |
| CalendarHeader.ToggleTwoViewsSwaps | packages/x-date-pickers/src/PickersCalendarHeader/PickersCalendarHeader.tsx:202-203 | with two distinct views, toggling requests the one that is not current |
| CalendarHeader.ToggleTwiceReturns | packages/x-date-pickers/src/PickersCalendarHeader/PickersCalendarHeader.tsx:201-208 | starting from either of two distinct leading views, two toggles come back to it |
| CalendarHeader.RendersNothing | packages/x-date-pickers/src/PickersCalendarHeader/PickersCalendarHeader.tsx:212-214 | the header renders nothing for the year-only calendar |
| CalendarHeader.RendersNothingExactly | packages/x-date-pickers/src/PickersCalendarHeader/PickersCalendarHeader.tsx:212-214 | the header renders nothing exactly for the views list `['year']` |
| CalendarHeader.ShowsSwitchViewButton | packages/x-date-pickers/src/PickersCalendarHeader/PickersCalendarHeader.tsx:244 | the switch-view button shows exactly with more than one view and no `disabled` |
| CalendarHeader.SwitchButtonToggles | packages/x-date-pickers/src/PickersCalendarHeader/PickersCalendarHeader.tsx:244 | whenever the switch-view button shows, a click with a callback requests a defined view |
| CalendarHeader.SelectNextMonth | packages/x-date-pickers/src/PickersCalendarHeader/PickersCalendarHeader.tsx:183 | requests exactly one month later, sliding left |
| CalendarHeader.SelectPreviousMonth | packages/x-date-pickers/src/PickersCalendarHeader/PickersCalendarHeader.tsx:184 | requests exactly one month earlier, sliding right |
| CalendarHeader.NextPreviousInverse | packages/x-date-pickers/src/PickersCalendarHeader/PickersCalendarHeader.tsx:183-184 | next and previous undo each other and slide in opposite directions |
| MobileRangePicker.MergeLocaleText | packages/x-date-pickers-pro/src/internals/hooks/useMobileRangePicker/useMobileRangePicker.tsx:169-172 | the merged texts have the keys of both; a key from the props wins, others keep the context's text |
| MobileRangePicker.IsToolbarHidden | packages/x-date-pickers-pro/src/internals/hooks/useMobileRangePicker/useMobileRangePicker.tsx:133 | hidden exactly when `hidden` is given as true |
| MobileRangePicker.FieldTypeOf | packages/x-date-pickers-pro/src/internals/hooks/useMobileRangePicker/useMobileRangePicker.tsx:89 | the field's declared type, `multi-input` when none is declared |
| MobileRangePicker.FieldAdditional | packages/x-date-pickers-pro/src/internals/hooks/useMobileRangePicker/useMobileRangePicker.tsx:121-128 | read-only unless `readOnly` is false; `inputRef` and `name` are passed only to a single-input field |
| MobileRangePicker.HiddenToolbarLabelIds | packages/x-date-pickers-pro/src/internals/hooks/useMobileRangePicker/useMobileRangePicker.tsx:175-186 | the ids pushed into `labels` when the toolbar is hidden, characterised by the lemmas below |
| MobileRangePicker.LabelledBy | packages/x-date-pickers-pro/src/internals/hooks/useMobileRangePicker/useMobileRangePicker.tsx:173-187 | `labelledById`: `labelId` with the toolbar shown, otherwise the space-joined ids, or `undefined` when there are none |
| MobileRangePicker.ComputeLabelledById | packages/x-date-pickers-pro/src/internals/hooks/useMobileRangePicker/useMobileRangePicker.tsx:173-188 | the pushes into `labels` and the join compute exactly `LabelledBy` |
| MobileRangePicker.VisibleToolbarLabel | packages/x-date-pickers-pro/src/internals/hooks/useMobileRangePicker/useMobileRangePicker.tsx:133-174 | with the toolbar shown, the dialog is labelled by `labelId` itself |
| MobileRangePicker.MultiInputLabelIds | packages/x-date-pickers-pro/src/internals/hooks/useMobileRangePicker/useMobileRangePicker.tsx:176-182 | multi-input: `-start-label` then `-end-label`, each exactly when its locale text is non-empty |
| MobileRangePicker.SingleInputLabelIds | packages/x-date-pickers-pro/src/internals/hooks/useMobileRangePicker/useMobileRangePicker.tsx:183-185 | other fields: only `-label`, exactly when a label is given |
| MobileRangePicker.HiddenToolbarWithoutIds | packages/x-date-pickers-pro/src/internals/hooks/useMobileRangePicker/useMobileRangePicker.tsx:187 | with the toolbar hidden, the value is `undefined` exactly when no id applies |
| MobileRangePicker.LabelledByRoundTrip | packages/x-date-pickers-pro/src/internals/hooks/useMobileRangePicker/useMobileRangePicker.tsx:187 | for a `labelId` without spaces, splitting the joined value on spaces gives back exactly the ids, in order |
| MobileRangePicker.MobilePaperProps | packages/x-date-pickers-pro/src/internals/hooks/useMobileRangePicker/useMobileRangePicker.tsx:189-195 | the paper gets `aria-labelledby` plus the user's props; user-supplied props, including `aria-labelledby`, win |
| MobileRangePicker.PaperLabelledByTitle | packages/x-date-pickers-pro/src/internals/hooks/useMobileRangePicker/useMobileRangePicker.tsx:173-195 | without a user override and with the toolbar shown, the paper is labelled by `labelId` |
| AxisTooltip.IndexOn | packages/x-charts/src/ChartsTooltip/ChartsAxisTooltipContent.tsx:56 | `axis && axis.index` is `null` exactly for a `null` axis and defined exactly for an axis with an index |
| AxisTooltip.ValueOn | packages/x-charts/src/ChartsTooltip/ChartsAxisTooltipContent.tsx:57 | `axis && axis.value` is the axis value exactly when the axis is present |
| AxisTooltip.IsXAxis | packages/x-charts/src/ChartsTooltip/ChartsAxisTooltipContent.tsx:54 | the x axis is chosen exactly when x has a defined index, or x is `null` |
| AxisTooltip.UsedAxisId | packages/x-charts/src/ChartsTooltip/ChartsAxisTooltipContent.tsx:62 | the first declared axis id of the chosen direction, `undefined` when there is none |
| AxisTooltip.Items | packages/x-charts/src/ChartsTooltip/ChartsAxisTooltipContent.tsx:71-72 | a group's series, one per `seriesOrder` entry, in that order |
| AxisTooltip.OnAxisAppend | packages/x-charts/src/ChartsTooltip/ChartsAxisTooltipContent.tsx:70-78 | filtering distributes over concatenation, so the type-by-type loop equals one filter |
| AxisTooltip.OnAxisMembership | packages/x-charts/src/ChartsTooltip/ChartsAxisTooltipContent.tsx:73-76 | a series is kept exactly when its axis key for the direction is undefined or the used id |
| AxisTooltip.OnAxisIsSubsequence | packages/x-charts/src/ChartsTooltip/ChartsAxisTooltipContent.tsx:70-78 | the filter keeps order |
| AxisTooltip.RelevantSeries | packages/x-charts/src/ChartsTooltip/ChartsAxisTooltipContent.tsx:64-80 | the nested loops push exactly the cartesian series on the used axis, type by type in `seriesOrder` order |
| AxisTooltip.PushOnAxis | packages/x-charts/src/ChartsTooltip/ChartsAxisTooltipContent.tsx:71-77 | the inner loop over one group pushes exactly its series on the used axis (or on no axis), in `seriesOrder` order |
| AxisTooltip.RelevantSeriesMembership | packages/x-charts/src/ChartsTooltip/ChartsAxisTooltipContent.tsx:66-76 | a series is listed exactly when it belongs to a bar, line or scatter group and is on the used axis; pie series never are |
| AxisTooltip.CartesianItemsMembership | packages/x-charts/src/ChartsTooltip/ChartsAxisTooltipContent.tsx:66-72 | the scanned series are exactly those listed in the `seriesOrder` of a cartesian group |
| AxisTooltip.RelevantSeriesKeepsOrder | packages/x-charts/src/ChartsTooltip/ChartsAxisTooltipContent.tsx:64-79 | the result is an order-preserving subsequence of the cartesian series |
| AxisTooltip.RelevantAxis | packages/x-charts/src/ChartsTooltip/ChartsAxisTooltipContent.tsx:82-84 | the configuration stored under the used id in the chosen direction, `undefined` when absent |
| AxisTooltip.AxisTooltipContent | packages/x-charts/src/ChartsTooltip/ChartsAxisTooltipContent.tsx:53-84 | the content gets the series, axis, data index and axis value of the same chosen direction |
| AxisTooltip.XIndexSelectsX | packages/x-charts/src/ChartsTooltip/ChartsAxisTooltipContent.tsx:54-57 | a defined x index selects the x axis; the data index and the axis value are then x's |
| AxisTooltip.NoXIndexSelectsY | packages/x-charts/src/ChartsTooltip/ChartsAxisTooltipContent.tsx:54-57 | an undefined x, or an x without an index, selects y; the data index and the axis value are then y's |
| GridEventsDoc.EventTypeText | docs/scripts/api/buildGridEventsDocumentation.ts:74 | `MuiEvent<{}>` without an `event` member, `MuiEvent<T>` with one |
| GridEventsDoc.RemoveQuotes | docs/scripts/api/buildGridEventsDocumentation.ts:106 | the result holds no single quote, and a quote-free text is unchanged |
| GridEventsDoc.QuotedNameUnquoted | docs/scripts/api/buildGridEventsDocumentation.ts:106 | a quoted literal `'name'` gives back `name` |
| GridEventsDoc.AddSighting | docs/scripts/api/buildGridEventsDocumentation.ts:42-77 | one call of the inner `forEach`; its effect on an entry is characterised by `AddProjectAt` and the sighting lemmas below |
| GridEventsDoc.AddProject | docs/scripts/api/buildGridEventsDocumentation.ts:42-77 | the inner `forEach` over one project's events; characterised by `AddProjectAt` |
| GridEventsDoc.Collect | docs/scripts/api/buildGridEventsDocumentation.ts:35-78 | the outer `forEach` over the projects; characterised by `CollectExisting` and `CollectAbsent` |
| GridEventsDoc.LinkProp | docs/scripts/api/buildGridEventsDocumentation.ts:94-111 | one call of the prop-linking `forEach`; characterised by the `LinkProps` lemmas below |
| GridEventsDoc.LinkProps | docs/scripts/api/buildGridEventsDocumentation.ts:89-113 | the prop-linking `forEach`; characterised by `LinkPropsPreserves`, `LinkPropsUnlinked` and `LinkPropsLastWins` |
| GridEventsDoc.SymFor | docs/scripts/api/buildGridEventsDocumentation.ts:42 | the property of a given name among a project's events, absent exactly when no property has that name |
| GridEventsDoc.AddProjectAt | docs/scripts/api/buildGridEventsDocumentation.ts:42-77 | scanning one project changes an event's entry only through that project's property of that name |
| GridEventsDoc.FirstCreation | docs/scripts/api/buildGridEventsDocumentation.ts:35-55 | the first project, in `GRID_PROJECTS` order, whose non-ignored declared property can create the entry |
| GridEventsDoc.CollectExisting | docs/scripts/api/buildGridEventsDocumentation.ts:35-78 | an existing entry keeps description, params and event, and gains exactly the projects listing the event unignored, in project order |
| GridEventsDoc.CollectAbsent | docs/scripts/api/buildGridEventsDocumentation.ts:35-78 | an entry exists after the scan exactly when some project can create it; the first such project supplies its fields, and its `projects` are that project then every later one listing the event |
| GridEventsDoc.CreatedByFirst | docs/scripts/api/buildGridEventsDocumentation.ts:35-78 | when the first scanned project creates an entry, it holds that project followed by every later project listing the event |
| GridEventsDoc.SightedInKeepsOrder | docs/scripts/api/buildGridEventsDocumentation.ts:19-50 | the projects that list an event without `@ignore` are an order-preserving subsequence of the scanned projects |
| GridEventsDoc.GridEntryProjects | docs/scripts/api/buildGridEventsDocumentation.ts:19-55 | every documented event's `projects` list follows `GRID_PROJECTS` order and names each project at most once |
| GridEventsDoc.EntryProjectsInGridOrder | docs/scripts/api/buildGridEventsDocumentation.ts:19-55 | the `projects` list of an entry is a subsequence of `GRID_PROJECTS` |
| GridEventsDoc.IgnoredSightingChangesNothing | docs/scripts/api/buildGridEventsDocumentation.ts:43-47 | an `@ignore` event never creates or extends an entry |
| GridEventsDoc.UndeclaredFirstSightingSkipped | docs/scripts/api/buildGridEventsDocumentation.ts:52-55 | a first sighting without a property-signature declaration creates nothing |
| GridEventsDoc.LaterSightingAppendsProject | docs/scripts/api/buildGridEventsDocumentation.ts:49-50 | a later sighting only appends the project name |
| GridEventsDoc.LinkPropsPreserves | docs/scripts/api/buildGridEventsDocumentation.ts:89-113 | linking never creates or removes entries and changes nothing but `componentProp` |
| GridEventsDoc.LinkPropsUnlinked | docs/scripts/api/buildGridEventsDocumentation.ts:94-111 | an entry that no non-ignored listener prop names is unchanged |
| GridEventsDoc.LinkPropsLastWins | docs/scripts/api/buildGridEventsDocumentation.ts:105-110 | an existing entry's `componentProp` is the last non-ignored prop that names it |
| GridEventsDoc.LexLeTotal | docs/scripts/api/buildGridEventsDocumentation.ts:115 | the name order compares any two names |
| GridEventsDoc.LexLeAntisymmetric | docs/scripts/api/buildGridEventsDocumentation.ts:115 | two names ordered both ways are equal |
| GridEventsDoc.LexLeTransitive | docs/scripts/api/buildGridEventsDocumentation.ts:115 | the name order is transitive |
| GridEventsDoc.InsertByName | docs/scripts/api/buildGridEventsDocumentation.ts:115 | inserting into a name-sorted list keeps it sorted and adds exactly the entry |
| GridEventsDoc.SortByName | docs/scripts/api/buildGridEventsDocumentation.ts:115 | the sort gives a name-sorted permutation of its input |
| GridEventsDoc.StrictlySorted | docs/scripts/api/buildGridEventsDocumentation.ts:115 | with distinct names the sorted list is strictly increasing |
| GridEventsDoc.GridProjectEvents | docs/scripts/api/buildGridEventsDocumentation.ts:19-36 | the projects in `GRID_PROJECTS` order, each with its own events |
| GridEventsDoc.BuildGridEventsDocumentation | docs/scripts/api/buildGridEventsDocumentation.ts:21-115 | the output is sorted by name and lists every entry of the collected-then-linked dictionary exactly once, with nothing else |
| GridEventsDoc.ValuesInInsertionOrder | docs/scripts/api/buildGridEventsDocumentation.ts:115 | `Object.values` over the insertion-ordered keys lists every entry exactly once |
| ComponentDocs.SlotInterfaceName | scripts/buildApiDocs/gridSettings/getComponentInfo.ts:20 | the slot interface name; characterised by the two lemmas below |
| ComponentDocs.SlotInterfaceOfDataGrid | scripts/buildApiDocs/gridSettings/getComponentInfo.ts:20 | a name starting `DataGrid` becomes `Grid…SlotsComponent` |
| ComponentDocs.SlotInterfaceOfOther | scripts/buildApiDocs/gridSettings/getComponentInfo.ts:20 | a name without `DataGrid` is only suffixed with `SlotsComponent` |
| ComponentDocs.GetComponentInfo | scripts/buildApiDocs/gridSettings/getComponentInfo.ts:11-40 | fails, with the file name in the message, exactly when no non-empty name is extracted; otherwise it carries the file, the name, its slot interface name, the api path and the three plan demos |
| ComponentDocs.ShouldSkip | scripts/buildApiDocs/gridSettings/getComponentInfo.ts:27-30 | skipped exactly when the file name contains `internal` or the source contains either internal `@ignore` tag |
| ComponentDocs.ReadFile | scripts/buildApiDocs/gridSettings/getComponentInfo.ts:24-32 | the parsed source, unchanged, together with the skip decision |
| ComponentDocs.SkippedOnlyWhenInternal | scripts/buildApiDocs/gridSettings/getComponentInfo.ts:27-30 | nothing is skipped unless the file name or the source says `internal` |
| ComponentDocs.RunLength | scripts/buildApiDocs/gridSettings/getComponentInfo.ts:57 | `[^\\/]+` consumes a maximal run of characters other than `/` and `\` |
| ComponentDocs.DirectoryAt | scripts/buildApiDocs/gridSettings/getComponentInfo.ts:57 | `([^\\/]+)\/` captures a non-empty run followed by `/` |
| ComponentDocs.MatchAt | scripts/buildApiDocs/gridSettings/getComponentInfo.ts:52-57 | a match can start only at `/packages/` |
| ComponentDocs.FirstMatch | scripts/buildApiDocs/gridSettings/getComponentInfo.ts:51-59 | the leftmost start where the pattern matches, or none when no start matches |
| ComponentDocs.LineEnd | scripts/buildApiDocs/gridSettings/getComponentInfo.ts:52-57 | the final `.*` stops at the first line terminator, or runs to the end |
| ComponentDocs.ReplaceImportPath | scripts/buildApiDocs/gridSettings/getComponentInfo.ts:51-59 | `replace` with either regular expression: the leftmost match is replaced and the rest of its line dropped; characterised by the lemmas below |
| ComponentDocs.RootImportPath | scripts/buildApiDocs/gridSettings/getComponentInfo.ts:51-54 | `rootImportPath`; characterised by `RootImportOfSource` |
| ComponentDocs.SubdirectoryImportPath | scripts/buildApiDocs/gridSettings/getComponentInfo.ts:56-59 | `subdirectoryImportPath`; characterised by `SubdirectoryImportOfSource` |
| ComponentDocs.OutsidePackagesUnchanged | scripts/buildApiDocs/gridSettings/getComponentInfo.ts:51-59 | a path without `/packages/` is returned as it is |
| ComponentDocs.LazyGroupStops | scripts/buildApiDocs/gridSettings/getComponentInfo.ts:52-57 | the lazy `(.+?)` group takes the shortest capture whose continuation matches |
| ComponentDocs.PackageCaptured | scripts/buildApiDocs/gridSettings/getComponentInfo.ts:52-57 | before `/src/`, the group captures exactly a slash-free package directory name |
| ComponentDocs.NotGridLayout | scripts/buildApiDocs/gridSettings/getComponentInfo.ts:52-57 | the `grid/` alternative cannot match before a package name other than `grid` |
| ComponentDocs.LeftmostMatch | scripts/buildApiDocs/gridSettings/getComponentInfo.ts:51-59 | a match at the first `/packages/` of the path is the match `replace` uses |
| ComponentDocs.LayoutMatch | scripts/buildApiDocs/gridSettings/getComponentInfo.ts:51-59 | on either layout, the leftmost match is at `/packages/` and captures the package |
| ComponentDocs.ReplaceToEnd | scripts/buildApiDocs/gridSettings/getComponentInfo.ts:51-59 | when the leftmost match reaches the end of a one-line path, the result is the text before the match followed by the replacement |
| ComponentDocs.LayoutReplaced | scripts/buildApiDocs/gridSettings/getComponentInfo.ts:51-59 | on a source layout, the whole path from `/packages/` on is replaced by the captured package's replacement |
| ComponentDocs.SubdirectoryTailAt | scripts/buildApiDocs/gridSettings/getComponentInfo.ts:57 | `/src/<dir>/` captures `<dir>` as the directory group |
| ComponentDocs.RootImportOfSource | scripts/buildApiDocs/gridSettings/getComponentInfo.ts:51-54 | `/packages/<pkg>/src/…` and `/packages/grid/<pkg>/src/…` both give `@mui/<pkg>` |
| ComponentDocs.SubdirectoryImportOfSource | scripts/buildApiDocs/gridSettings/getComponentInfo.ts:56-59 | `…/src/<dir>/…` gives `@mui/<pkg>/<dir>` on both layouts |
| ComponentDocs.CoreGridImportPaths | scripts/buildApiDocs/gridSettings/getComponentInfo.ts:51-69 | a component in a sub-directory of `/packages/grid/x-data-grid/src/` gets `@mui/x-data-grid/<dir>` and all three grid packages as re-exports |
| ComponentDocs.ReExportersOrder | scripts/buildApiDocs/gridSettings/getComponentInfo.ts:61-69 | the list starts with the root; a grid package adds exactly the grid packages above it, in order; other roots add nothing |
| ComponentDocs.ComputeReExportPackages | scripts/buildApiDocs/gridSettings/getComponentInfo.ts:61-69 | the pushes build exactly that list |
| ComponentDocs.ComponentImports | scripts/buildApiDocs/gridSettings/getComponentInfo.ts:48-75 | one sub-directory import first, then one import per re-export package, in order |
| PopularFeatures.GetChipProperties | docs/data/data-grid/demo/PopularFeaturesDemo.js:231-240 | `Premium` gets the premium avatar and `#ffecc8`, `Pro` the pro avatar and `#c8e9ff`, anything else no avatar and `#c8ffdb` |
| PopularFeatures.SortingValue | docs/data/data-grid/demo/PopularFeaturesDemo.js:382-391 | rank 1 exactly for `Pro`, 2 exactly for `Premium`, otherwise 0 |
| PopularFeatures.SortComparator | docs/data/data-grid/demo/PopularFeaturesDemo.js:392-395 | the plan column's comparator; characterised by the three comparator lemmas below |
| PopularFeatures.AvatarExactlyForPaidPlans | docs/data/data-grid/demo/PopularFeaturesDemo.js:231-246 | the plan tag shows an avatar exactly for `Pro` and `Premium` |
| PopularFeatures.ChipColourFollowsRank | docs/data/data-grid/demo/PopularFeaturesDemo.js:231-391 | two plans share a chip colour exactly when they share a rank |
| PopularFeatures.ComparatorAntisymmetric | docs/data/data-grid/demo/PopularFeaturesDemo.js:392-395 | swapping the plans negates the comparison |
| PopularFeatures.ComparatorZeroExactly | docs/data/data-grid/demo/PopularFeaturesDemo.js:392-395 | the comparator is 0 exactly for equal ranks, and negative exactly for a lower first rank |
| PopularFeatures.ComparatorTransitive | docs/data/data-grid/demo/PopularFeaturesDemo.js:392-395 | the comparator's order is transitive |
| PopularFeatures.AscendingOrdersCommunityProPremium | docs/data/data-grid/demo/PopularFeaturesDemo.js:381-448 | in the ascending initial sort, only `Pro` or `Premium` follow a `Pro`, and only `Premium` follows a `Premium` |
| PopularFeatures.FeaturesSetWellFormed | docs/data/data-grid/demo/PopularFeaturesDemo.js:37-371 | feature ids are distinct and every plan is one of the column's `valueOptions` |
| PopularFeatures.PlanOptionsRanked | docs/data/data-grid/demo/PopularFeaturesDemo.js:37-391 | the options `Premium`, `Pro`, `Community` rank 2, 1, 0 and each is the plan of some feature |
| Text.IndexOf | scripts/buildApiDocs/gridSettings/getComponentInfo.ts:28 | `indexOf` is -1 exactly when the pattern does not occur; otherwise its first occurrence |
| Text.ReplaceFirst | scripts/buildApiDocs/gridSettings/getComponentInfo.ts:20 | `replace` with a string pattern replaces only the first occurrence, and nothing when there is none |
| Text.SplitJoin | packages/x-date-pickers-pro/src/internals/hooks/useMobileRangePicker/useMobileRangePicker.tsx:187 | splitting a space-joined list of space-free ids gives the list back |

## Left out

- Rendering and styling: JSX, styled components, `useSlotProps`, theming, transitions and `propTypes` are not modelled.
- The grid's `apiRef.current.updateRows` is a log of its arguments. The rows it re-renders and the row ids it resolves are not modelled.
- BulkEditing.RowId: row ids are taken to be strings that are not array indices, so the ledger objects list their keys in insertion order. Ids such as `'0'` or `'42'`, which JavaScript would list first in ascending numeric order, are not modelled.
- BulkEditing.UnsavedChanges.SaveChanges: the `await` of the simulated server round trip is one atomic step, so edits made while a save is in flight are not modelled. The `catch` path is not modelled either, because nothing in the `try` block can throw once `updateRows` is a log.
- React state batching: `setHasUnsavedRows` and `setIsSaving` take effect at once.
- CalendarHeader.SelectNextMonth: `utils.addMonths` is integer month arithmetic on a month count. Date adapters, formatting and the next/previous-month-disabled hooks are not modelled.
- `usePicker`, `useRangePosition`, the license check and the enriched field props of the mobile range picker are not modelled; only the values they pass through are inputs.
- AxisTooltip.RelevantSeries: every id in a group's `seriesOrder` is assumed to name one of its series (`ContextWellFormed`), as the series formatter provides. The source would throw a `TypeError` on a dangling id; that case is not modelled.
- The series and cartesian contexts of the axis tooltip are inputs. Series are reduced to their ids and axis keys, and axis values are integers.
- GridEventsDoc.BuildGridEventsDocumentation: the TypeScript checker, JSDoc tag parsing, `linkify`, `renderMarkdown`, `stringifySymbol`, writing `events.json` and the console message are not modelled. What they yield for each symbol is an input, already rendered.
- GridEventsDoc.SortByName: `localeCompare` is replaced by code-unit lexicographic order, a total order on names. Locale collation is not modelled.
- GridEventsDoc.AddSighting: JavaScript objects inherit keys such as `constructor` from their prototype. An event with such a name would be seen as already present; this is not modelled.
- `extractPackageFile`, `getMuiName`, `kebabCase`, `parseFile` and `toGitHubPath` are inputs. `apiPagesDirectory` (a `path.join` with the working directory), `getInheritance` and the captured `srcInfo` are not modelled.
- The popular-features rows keep their id, name, plan, detail page and "new" badge. Descriptions, demo elements, code links, cell renderers, the detail panel and the row-click handler are not modelled.
- Random demo data is not modelled.
- Column-pinning reconciliation (pin, unpin, restoring a remembered position) is not part of this model: only its test file is at hand, not its implementation.
