# Site-profile editor: a Dafny model

This project models the in-memory editor of a personal site's "site profile" document. It covers four parts:

- **The document and its path-addressed mutations.** The document is a record with five string scalars, an optional `themeSettings { primary, accent }` record and five ordered collections. A path is a sequence of string segments. Canonical decimal numerals index arrays and any other string indexes a record. There are two editors:
  - The `useDashboard` hook has `updateData`, which creates an empty record for a missing or falsy intermediate. It also has `applyTheme`, `addItem`, `removeItem`, the `hasUnsavedChanges` flag and the outcome logic of `saveToServer`.
  - The older dashboard route has an `updateData` that walks existing nodes only. It also has `openEdit`, which reads the node at a path, `handleModalSave`, the modal's close, `addItem` and `removeItem`.
- **The single edit session of the route.** The session is the `editModal` record `{open, path, data, schemaType, title}`.
- **The edit modal.** It has the static `SCHEMAS` registry, the draft seeded on open (a `simple` scalar is wrapped as `{value: x}` and a record is shallow-copied), `handleChange`, and save, which unwraps the draft again. The route's inline copy of the modal (app/routes/dashboard.tsx:85-127) has the same logic and the same registry. The `EditModal` module models both.
- **The theme projection.** `getThemeStyles` projects `themeSettings` onto two CSS custom properties.

Module layout:

- `Json` (json.dfy) holds the value tree and the JavaScript property-access rules the editors rely on. These are truthiness, array-index keys, a read that can give `undefined` or raise a TypeError, and an assignment.
- `SiteData` holds the document shape and the append and filter operations on a collection.
- `UseDashboard` holds the hook. Its class `Dashboard` keeps the fields `siteData` and `hasUnsavedChanges`.
- `DashboardRoute` holds the route. Its class `Dashboard` keeps the fields `siteData` and `editModal`.
- `EditModal` holds the registry and the draft. Its class `EditModal` keeps the last props and the draft `formData`.
- `Theme` holds `getThemeStyles`.
- `DashboardForm` holds the paths one row of the form view writes. It exists for the finding below.

The two `updateData` loops and the `openEdit` loop are the methods `UpdateCopy`, `UpdateExistingCopy` and `ReadPath`. Each is proved against a specification function (`Updated`, `UpdatedExisting`, `Get`), and the class methods call them. Every deep copy followed by an assignment is modelled as rebuilding the root-to-target chain of immutable values. The old document is never changed, which is what the copy guarantees.

In three places the model follows the code where a reader might expect otherwise:

- An out-of-range `removeItem` filters nothing and reports no error.
- A session opened on `[collection, index]` is not invalidated when an item of that collection is removed. The stored path then addresses the next element (`DashboardRoute.SessionPathShiftsAfterRemoval`).
- `addItem` and `removeItem` are only modelled on a name whose value is an array; the model rules out the rest with a `requires` (see "## Left out"). In the code, `addItem` on a string field does not throw: the spread turns the string into an array of its one-character strings followed by the item. `addItem` throws on a record, a boolean, null or an absent key. `removeItem` throws on every non-array, which has no `filter`.

## Model

| member | source | states |
|---|---|---|
| Json.NatToString | app/routes/dashboard.tsx:294 | `String(i)` is a non-empty digit string, starting with '0' only for 0 |
| Json.IndexOfNatToString | app/routes/dashboard.tsx:294 | the key `String(i)` that a view builds addresses array element i |
| Json.NatToStringOfIndex | app/routes/dashboard.tsx:185 | every key that addresses an array element is the canonical numeral of its index |
| Json.IndexKeyInjective | app/routes/dashboard.tsx:185 | two keys that address the same array element are the same key |
| Json.NatToStringInjective | app/components/admin/EditModal.tsx:28 | distinct indices give distinct keys, so spreading an array keeps every element |
| Json.Child | app/routes/dashboard.tsx:185 | `v[key]` throws exactly on null, finds a value only in a container, finds exactly the present keys of a record and the in-range index keys of an array |
| Json.Get | app/routes/dashboard.tsx:184-185 | the read of `val[p]` segment by segment: the empty path reads the root, a non-empty path throws on null, finds a value only below a container, and on a string or boolean is `undefined` for one segment and a TypeError for more; `Json.GetSnoc` and `DashboardRoute.ReadPath` tie it to the loop |
| Json.GetSnoc | app/routes/dashboard.tsx:184-185 | reading one more segment is one more step of the left-to-right walk |
| Json.Put | app/hooks/useDashboard.ts:138 | `current[key] = x` keeps the container kind and array length, and the key then reads x |
| Json.PutFrame | app/hooks/useDashboard.ts:138 | an assignment leaves every other key of the container as it was |
| Json.PutSame | app/routes/dashboard.tsx:178 | assigning back the value already at a key changes nothing |
| SiteData.Added | app/hooks/useDashboard.ts:162 | the collection becomes its old items followed by the new one; the record keeps its keys and every other field |
| SiteData.Without | app/hooks/useDashboard.ts:170 | `filter((_, i) => i !== index)` is the splice without element `index` when it is in range and the whole array otherwise; `SiteData.WithoutShifts` states the index-shift law |
| SiteData.KeepOutside | app/hooks/useDashboard.ts:170 | filtering with an index outside the array keeps every element |
| SiteData.KeepIsSplice | app/hooks/useDashboard.ts:170 | filtering out an in-range index i is the splice that drops exactly element i |
| SiteData.WithoutShifts | app/hooks/useDashboard.ts:170 | after removal the length drops by one, earlier elements stay and later ones move down by one; an out-of-range index changes nothing |
| SiteData.Removed | app/hooks/useDashboard.ts:170 | only the named collection changes, to its items without the index |
| SiteData.AddedThenRemoved | app/hooks/useDashboard.ts:162-170 | removing the index just appended restores the document |
| SiteData.CollectionOpsKeepShape | app/types/index.ts:31-46 | appending and removing keep a document of the `SiteData` shape |
| UseDashboard.Descend | app/hooks/useDashboard.ts:134-135 | the walk moves to the existing child when it is truthy, and to a fresh empty record otherwise |
| UseDashboard.Updated | app/hooks/useDashboard.ts:126-142 | the updated document has the same kind as the old one |
| UseDashboard.GetAfterUpdated | app/hooks/useDashboard.ts:133-138 | reading the path just written yields the value written |
| UseDashboard.UpdatedFrame | app/hooks/useDashboard.ts:130-138 | every location that existed and is neither on the written chain nor below the target keeps its value |
| UseDashboard.ThemeSettingsCreated | app/hooks/useDashboard.ts:134 | with `themeSettings` absent or falsy, `themeSettings.primary` is unreadable before the update and reads the value after it |
| UseDashboard.FormPathsWritable | app/components/admin/DashboardForm.tsx:23-112 | on a well-shaped document the scalar paths, the colour paths `[themeSettings, colour]` (theme record present or not) and the `[collection, String(i), key]` paths of the form view meet the update's precondition |
| UseDashboard.ThemeApplied | app/hooks/useDashboard.ts:148-151 | the two colour writes leave a record holding `themeSettings`; `UseDashboard.ThemeAppliedFields` states the full result |
| UseDashboard.ThemeAppliedFields | app/hooks/useDashboard.ts:144-156 | applyTheme sets both colours, keeps the theme record's other keys, creates the record if absent, and changes no other top-level field |
| UseDashboard.ThemeAppliedKeepsShape | app/hooks/useDashboard.ts:148-151 | applyTheme keeps a well-shaped document well shaped, and both colour paths then read the new strings |
| UseDashboard.NextUnsaved | app/hooks/useDashboard.ts:78-169 | after one event the flag is set exactly when a mutation hit a present document, or it was set and no successful save of a present document cleared it (lines 78-81, 92-96, 103, 139, 153, 161, 169) |
| UseDashboard.UnsavedAfterTrace | app/hooks/useDashboard.ts:12-169 | the flag is set exactly when some mutation has no later successful save, or it started set and no save succeeded; without a document it never moves |
| UseDashboard.Dashboard.constructor | app/hooks/useDashboard.ts:11-12 | the loaded document (or none) with the flag clear |
| UseDashboard.UpdateCopy | app/hooks/useDashboard.ts:130-140 | the descending loop (creating empty records) and the assignment into the copy compute `Updated` of the old document |
| UseDashboard.Dashboard.UpdateData | app/hooks/useDashboard.ts:126-142 | the document becomes `Updated` of the old one; a null document stays null and leaves the flag alone; otherwise the flag is raised |
| UseDashboard.Dashboard.ApplyTheme | app/hooks/useDashboard.ts:144-156 | the new document is the two theme writes applied to the old one; the flag rule is the same as for updateData |
| UseDashboard.Dashboard.AddItem | app/hooks/useDashboard.ts:158-164 | the new document is `Added`, a null one stays null; the flag follows the mutation rule |
| UseDashboard.Dashboard.RemoveItem | app/hooks/useDashboard.ts:166-172 | the new document is `Removed`, a null one stays null; the flag is raised even when nothing is removed |
| UseDashboard.Dashboard.SaveToServer | app/hooks/useDashboard.ts:77-111 | the document is untouched; only a successful outcome on a present document clears the flag |
| Theme.GetThemeStyles | app/lib/theme.ts:3-10 | no entries without a document or a theme; otherwise exactly the two tokens, each the colour read at its theme path |
| Theme.StylesAfterApplyTheme | app/lib/theme.ts:6-9 | after applyTheme(p, a) the two tokens are p and a |
| EditModal.RegistryShape | app/components/admin/EditModal.tsx:6-13 | exactly six kinds, each with a non-empty list of distinct keys; `simple` has the single key `value` |
| EditModal.RegistryInputKinds | app/components/admin/EditModal.tsx:9-10 | only `tech.primary` is a checkbox and only `project.description` is a textarea |
| EditModal.FieldsFor | app/components/admin/EditModal.tsx:32 | every tag gets a non-empty form of distinct keys; an unknown tag gets the `simple` form |
| EditModal.Spread | app/components/admin/EditModal.tsx:28 | `{...v}` copies a record's own entries, an array's elements under exactly its index keys, and nothing of null or a boolean |
| EditModal.Seed | app/components/admin/EditModal.tsx:28 | a `simple` draft has exactly the key `value` |
| EditModal.Unwrap | app/components/admin/EditModal.tsx:61 | the saved value re-seeds to the draft it came from: the whole draft for a record kind, the `value` entry for `simple`; `EditModal.OpenSaveRoundTrip` is the other direction |
| EditModal.OpenSaveRoundTrip | app/components/admin/EditModal.tsx:28-61 | open then save with no edit returns the node opened: the scalar for `simple`, the whole record, keys outside the schema included, otherwise |
| EditModal.ChangeThenSave | app/components/admin/EditModal.tsx:33-61 | after one change, a `simple` save returns the new value only if the key was `value`; a record save has the new value at the key and every other draft key unchanged |
| EditModal.EditModal.constructor | app/components/admin/EditModal.tsx:25-29 | the draft starts empty and is seeded when the modal is open |
| EditModal.EditModal.Rerender | app/components/admin/EditModal.tsx:27-31 | the draft is re-seeded only when open and a dependency changed; while closed it is left alone |
| EditModal.EditModal.Fields | app/components/admin/EditModal.tsx:32 | the rendered form is non-empty with distinct keys |
| EditModal.EditModal.HandleChange | app/components/admin/EditModal.tsx:33 | exactly one draft key changes |
| EditModal.EditModal.Submit | app/components/admin/EditModal.tsx:61 | the value handed to `onSave` is `formData.value` for `simple` and the whole draft otherwise; nothing changes |
| DashboardRoute.UpdatedExisting | app/routes/dashboard.tsx:173-180 | a successful update started from a container, keeps its kind and leaves the first key present; `UpdatedExistingSucceeds`, `UpdatedExistingAgrees` and `GetAfterUpdatedExisting` state when it succeeds and what it writes |
| DashboardRoute.UpdatedExistingSucceeds | app/routes/dashboard.tsx:176-178 | the update never creates intermediates: it succeeds exactly when the path without its last segment resolves to a container |
| DashboardRoute.UpdatedExistingOnContainer | app/routes/dashboard.tsx:177-178 | a successful update started from a record or an array |
| DashboardRoute.UpdatedExistingAgrees | app/routes/dashboard.tsx:173-180 | where the route's update succeeds it equals the hook's creating update |
| DashboardRoute.GetAfterUpdatedExisting | app/routes/dashboard.tsx:176-178 | reading the path just written yields the value written |
| DashboardRoute.UpdatedExistingSame | app/routes/dashboard.tsx:173-180 | writing back the value found at a path gives the same document |
| DashboardRoute.SimpleEditCommits | app/routes/dashboard.tsx:89-122 | on a `simple` node, open-and-save with no edit leaves the document as it was; after setting `value` to v the path reads v |
| DashboardRoute.SessionPathShiftsAfterRemoval | app/routes/dashboard.tsx:199-202 | after removing index j, a stored path `[c, String(k)]` with k >= j reads the element that was at k + 1 |
| DashboardRoute.Dashboard.constructor | app/routes/dashboard.tsx:134-138 | the loaded document and the closed initial session |
| DashboardRoute.UpdateExistingCopy | app/routes/dashboard.tsx:175-178 | the descending loop over existing nodes and the assignment into the copy compute `UpdatedExisting`, None exactly where the code raises a TypeError |
| DashboardRoute.ReadPath | app/routes/dashboard.tsx:184-185 | the `val = val[p]` loop computes `Get`, the left-to-right read with its `undefined` and TypeError outcomes |
| DashboardRoute.Dashboard.UpdateData | app/routes/dashboard.tsx:173-180 | the document becomes `UpdatedExisting` of the old one; on a TypeError the state is unchanged; a null document is left alone |
| DashboardRoute.Dashboard.OpenEdit | app/routes/dashboard.tsx:182-187 | the node is read with `Get` at the path; the session becomes open with exactly that path, kind, title and node, replacing any previous one; a null document changes nothing |
| DashboardRoute.Dashboard.HandleModalSave | app/routes/dashboard.tsx:189-192 | the value is written at the session's path and the session closes with its path, kind and title kept |
| DashboardRoute.Dashboard.Close | app/routes/dashboard.tsx:367 | only `open` becomes false; the document is not in the frame |
| DashboardRoute.Dashboard.AddItem | app/routes/dashboard.tsx:194-197 | the document becomes `Added`; the session is untouched |
| DashboardRoute.Dashboard.RemoveItem | app/routes/dashboard.tsx:199-202 | the document becomes `Removed`; the session and its path are untouched |
| DashboardForm.GameFieldRead | app/components/admin/DashboardForm.tsx:98-100 | the path `[games, String(i), key]` reads the key of game i |
| DashboardForm.IconInputWritesUrl | app/components/admin/DashboardForm.tsx:100 | as written, typing into a game's icon input leaves the icon unchanged and overwrites the url |
| DashboardForm.EveryInputWritesItsKey | app/components/admin/DashboardForm.tsx:98-100 | when each input writes the key it displays, the edited key reads the new value and the row's other keys keep theirs |

## Findings

| source | as written | input that shows it | evidently intended | confidence | as-written member | corrected member |
|---|---|---|---|---|---|---|
| app/components/admin/DashboardForm.tsx:100 | the game row's icon input displays `g.icon` but its change handler writes `['games', String(i), 'url']` | any game row, typing a value different from its icon into the icon input: the icon stays and the url is overwritten | the handler writes `['games', String(i), 'icon']` | high; follows from the path literal; not executed | DashboardForm.IconInputWritesUrl | DashboardForm.EveryInputWritesItsKey |

## Left out

- Network and authentication are not modelled: the session check, the document fetch, the POST of a save and logout. The loaded document is a constructor parameter. A save is an abstract `SaveOutcome` (Saved, Unauthorized, Failed).
- The `loading` and `saving` flags, toasts, alerts and navigation are not modelled. None of them affects the document or the session.
- The `beforeunload` listener, the `AbortController` and the `mounted` guards are not modelled. They concern the browser and asynchronous lifecycle.
- The route's `handleSaveToServer` is not modelled. It changes no document or session state.
- The views (DashboardForm, DashboardPreview, SectionCard, Editable, the modal markup) and the theme's use in page styles are not modelled. Two parts of the form view are modelled: the scalar, colour and row-key paths it passes to `updateData` (`UseDashboard.FormPathsWritable`), and the paths a game row writes (`DashboardForm`).
- Which JSON type each input writes is not modelled, nor its display fallbacks (`|| ''`, `!!`). A change carries an arbitrary `Value`.
- The JSON deep copy is modelled as value semantics. A value holding `undefined`, which the copy would drop, cannot occur in the model.
- Reading a property of a string gives `undefined` in the model. JavaScript would index its characters, but no path the views build does this.
- Numbers are not modelled, because the document holds none.
- Keys inherited from `Object.prototype` (for example `SCHEMAS["constructor"]`) are not modelled. Such a tag would select a non-array.
- The 2^32 - 1 limit on JavaScript array indices is not modelled. Every canonical numeral is an index.
- JavaScript quirks are excluded by `requires` rather than modelled: the empty path writing to key `"undefined"`, sparse writes past the end of an array, a non-index key written onto an array (such as `games.foo = v`), property writes on strings and booleans, and `addItem`/`removeItem` on a non-array (including `addItem` on a string, which the code turns into an array of characters).
- UseDashboard.Dashboard.ApplyTheme: requires `ThemeWritable`, which excludes a truthy `themeSettings` that is not a record. In the code, writing the colours onto a string or boolean throws, and an array takes them as non-index properties.
- UseDashboard.Dashboard.UpdateData: requires `Writable`, so the quirks above are outside its contract. On those inputs the code writes the key `"undefined"`, grows an array sparsely, or throws on a primitive.
- DashboardRoute.Dashboard.OpenEdit: a path whose last segment is missing reports `!ok` and leaves the session as it was, open or closed. The code opens the modal with `data` undefined, which has no `Value` here. A missing intermediate raises a TypeError in the code and reports `!ok` in the model, as it should.
- EditModal.EditModal.Rerender: dependencies are compared by value. React compares them with `Object.is`, so a structurally equal but fresh `initialData` would re-seed in the code and not in the model.
- UseDashboard.Dashboard.SaveToServer: a save is one atomic event, and events are taken in the order they complete. The code posts the document captured when `saveToServer` was called and clears the flag after the response (app/hooks/useDashboard.ts:89, 103). A mutation that lands while the POST is in flight is not in the saved body, yet the flag is cleared. `UseDashboard.UnsavedAfterTrace` describes the flag only for saves that no mutation interleaves with.
