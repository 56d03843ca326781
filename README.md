# Supply-request tracker: verified model of its state core

The application tracks purchase requests. A request has an order number, dates, a sector, a supplier, a responsible person, a status and a list of items. Two context providers keep the data.

- **Request provider.** It holds the requests, the configurable form fields and the statuses. Each of the three is a cache loaded from a backend table. An empty `form_fields` or `statuses` table is seeded with default rows.
- **Identity provider.** It holds the signed-in user, the user list and the sector list. Login matches an email and a password exactly.

The pages compute a few pure values from these caches: a status's badge colour, a formatted date, the dashboard counters, the overdue mark, a field's shown value and the defaults the user form applies.

The model has these parts:

- `Remote.Table` stands for one backend table. It holds rows and a log of the calls it received. Whether a call fails is decided in advance: `faultAt(n)` is the error code of the n-th call, if any. A failed call changes no row.
- `Sync.LoadWithSeed` is the load step both providers share: select; if that succeeds on an empty table, insert the seed rows in order and select again. `Sync.Expected` says what a load finds. `Sync.LoadedTable` says what it does to the table.
- `RequestContext.RequestStore` and `AuthContext.AuthStore` are the two providers, as classes. Their fields are the caches and flags the source keeps in React state.
  - Mutations of requests, form fields and statuses are optimistic: the cache changes first, then the remote call follows, and there is no rollback.
  - User and sector mutations only call the table.
- `Dashboard`, `RequestDetail` and `UsersPage` hold the page computations. `UsersPage.UserForm` is the user form's state cell.
- `Seed` is the seed catalog from `constants.ts`, with its consistency facts.
- `Seqs`, `Keyed` and `Text` model the JavaScript operations the code uses: `find`, `filter`, `map`, `split`, `<` on strings, `String(n)` and `Number(s)`.

The clock (`Date.now()`, `new Date().toISOString()`) becomes a parameter (`now`, `today`). The browser's `localStorage` entry `user` becomes `AuthContext.SessionSlot`.

The file `types.ts`, which declares the entity types, is not part of this model. The entity fields come from the seed data and from how the providers and pages use them.

## Model

| member | source | states |
|---|---|---|
| Seqs.IndexOf | contexts/RequestContext.tsx:128 | `find`'s position: the first element that satisfies the predicate, with no earlier one satisfying it; none exactly when no element does |
| Seqs.Filter | contexts/RequestContext.tsx:148 | `filter` keeps only elements satisfying the predicate, keeps every such element, and never grows |
| Seqs.FindSpec | contexts/RequestContext.tsx:128 | what `find` returns is an element satisfying the predicate; nothing is returned exactly when no element satisfies it |
| Seqs.FilterAppend | contexts/RequestContext.tsx:148 | filtering distributes over concatenation, so the survivors keep their order |
| Keyed.FindByKeySpec | contexts/RequestContext.tsx:127-129 | lookup by id returns the first entry with that id; it returns nothing exactly when no entry has the id |
| Keyed.RemoveByKeySpec | contexts/RequestContext.tsx:146-148 | deleting by id leaves no entry with the id, keeps every other entry, and changes nothing if the id is absent |
| Keyed.UpdateByKeySpec | contexts/RequestContext.tsx:139-141 | updating by id keeps the length; it merges exactly the entries with the id and is a no-op if the id is absent |
| Text.Split | pages/DashboardPage.tsx:42 | `split` yields at least one part, and no part contains the separator |
| Text.SplitAtFirst | pages/DashboardPage.tsx:68 | splitting a string at its first separator puts the part before the separator first |
| Text.BeforeFirst | pages/DashboardPage.tsx:68 | `split(sep)[0]` is the prefix of the string that ends right before its first separator, or the whole string when it has none; the greeting's first name and today's date (line 61) both use it |
| Text.SplitHeadPrefix | pages/DashboardPage.tsx:61 | the first part of a split is a prefix of the string, followed by the separator when it is shorter than the string |
| Text.JoinSplit | pages/DashboardPage.tsx:42 | joining the parts of a split with the separator gives the original string back |
| Text.LessTransitive | pages/DashboardPage.tsx:107 | string `<` is transitive |
| Text.LessTotal | pages/DashboardPage.tsx:107 | two different strings are ordered by `<` one way or the other |
| Text.LessIrreflexive | pages/DashboardPage.tsx:107 | no string is `<` itself |
| Text.Less | pages/DashboardPage.tsx:107 | string `<` puts a proper prefix first; its order laws are the three lemmas above |
| Text.NatToString | contexts/RequestContext.tsx:165 | `String(n)` of a non-negative integer is a non-empty run of decimal digits |
| Text.NatToStringValue | contexts/RequestContext.tsx:165 | the digits `String(n)` writes denote `n` |
| Text.ParseIntToString | pages/RequestDetailPage.tsx:36 | `Number(String(n)) === n` for every integer id |
| Text.ParseNumber | pages/RequestDetailPage.tsx:36 | `Number(s)` is NaN only for a non-empty string with a non-digit, and a digit string denotes its decimal value (`""` is 0) |
| Text.NatToStringInjective | contexts/RequestContext.tsx:165 | different numbers are written as different digit strings |
| Text.TaggedIdInjective | contexts/RequestContext.tsx:165 | an id made of a fixed tag followed by `String(n)` determines `n` |
| Entities.MergeRequestLaws | contexts/RequestContext.tsx:141 | `{...r, ...p}` with an empty patch changes nothing, merging the same patch twice equals merging it once, and a patch without `id` keeps the id |
| Entities.WithoutPassword | contexts/AuthContext.tsx:153-154 | the stored session row has no password and agrees with the account row in every other field |
| Sync.SeededLoadInserts | contexts/RequestContext.tsx:62-65 | a load that seeds logs the first select, then exactly one insert per seed row in the seeds' order, then the second select |
| Remote.AcceptedAll | contexts/RequestContext.tsx:62-64 | when no insert fails, the table ends up holding exactly the seed rows |
| Remote.AcceptedWithin | contexts/RequestContext.tsx:62-64 | failed inserts only lose rows: the table gets at most the seed rows, each of them a seed row |
| Remote.UpsertIntoSpec | contexts/RequestContext.tsx:158 | an upsert places the row in the table and keeps rows with other ids; it appends when the id is new and keeps the length when the id exists |
| Remote.Table.Select | contexts/RequestContext.tsx:34 | a select returns every row or the call's error, logs one call, and changes no row |
| Remote.Table.SelectSingle | contexts/AuthContext.tsx:141-146 | `.eq(...).single()` returns the one matching row; otherwise it returns the call's error, or `PGRST116` when the filter does not match exactly one row |
| Remote.Table.Insert | contexts/RequestContext.tsx:136 | an insert appends the row unless the call fails |
| Remote.Table.Upsert | contexts/RequestContext.tsx:158 | an upsert replaces the row with the same id or appends it, unless the call fails |
| Remote.Table.Update | contexts/RequestContext.tsx:143 | `update(p).eq('id', id)` merges the patch into the rows with that id, unless the call fails |
| Remote.Table.Delete | contexts/RequestContext.tsx:150 | `delete().eq('id', id)` removes the rows with that id, unless the call fails |
| Sync.LoadWithSeed | contexts/RequestContext.tsx:59-66 | one select; only when it succeeds with no rows are the seed rows inserted once each, in order, followed by a second select; the outcome and the table's new state are given by `Expected` and `LoadedTable` |
| Sync.SeedingIsIdempotent | contexts/AuthContext.tsx:64-74 | with no failures, an empty table is seeded to exactly the seed rows, and the next load finds those rows and seeds nothing |
| Sync.NoSeedWhenRowsExist | contexts/RequestContext.tsx:73-74 | a load over a table that already holds rows adds one select and no insert to the log, and leaves the rows unchanged, whatever the faults |
| RequestContext.AddRequestThenFind | contexts/RequestContext.tsx:131-134 | after `addRequest` the new request, with id `now`, leads the cache; lookup by `now` returns it; the previous cache follows unchanged |
| RequestContext.FindRequest | contexts/RequestContext.tsx:127-129 | `getRequestById` returns the first cached request with the id; it returns nothing exactly when no cached request has the id |
| RequestContext.UpdateRequestsSpec | contexts/RequestContext.tsx:139-141 | `updateRequest` keeps the length and order, merges the patch into the entries with the id, keeps the others, and is a no-op if the id is absent |
| RequestContext.DeleteRequestsSpec | contexts/RequestContext.tsx:146-148 | `deleteRequest` removes every entry with the id and keeps all others; afterwards `getRequestById(id)` is undefined |
| RequestContext.DeleteRequestsKeepsOrder | contexts/RequestContext.tsx:148 | deletion keeps the surviving requests in their order |
| RequestContext.FieldAndStatusTransforms | contexts/RequestContext.tsx:177-189 | updating form fields or statuses merges exactly the entries with the id; deleting one leaves no entry with the id (the same for statuses, lines 199-211) |
| RequestContext.NewFormFieldSpec | contexts/RequestContext.tsx:162-170 | a field added by `addFormField` has id `custom-<now>`, is active, optional, not standard and listed, keeps its label and type, never takes a standard field's id, and fields added at different times get different ids |
| RequestContext.NewStatusSpec | contexts/RequestContext.tsx:191-192 | statuses added at different times get different ids; an added status shares an id with the seeded `status-k` only when added at time `k`; name and colour are kept |
| RequestContext.BackFillSpec | contexts/RequestContext.tsx:52-58 | `BackFillAll`, applied after a non-empty field load, keeps the length and order; each field keeps a defined `isVisibleInList` and otherwise takes its `isStandard` value; no other attribute changes |
| RequestContext.BackFill | contexts/RequestContext.tsx:54-57 | a back-filled field always has a defined `isVisibleInList`; a defined flag is kept; a missing one becomes `isStandard`; no other attribute changes |
| RequestContext.BackFillIdempotent | contexts/RequestContext.tsx:54-57 | back-filling an already back-filled list changes nothing |
| RequestContext.LoadErrorKeepsCaches | contexts/RequestContext.tsx:50-66 | a failed select (missing-table code or any other) leaves the field and status caches unchanged whatever the table holds, and so does a failed reselect after seeding (line 66, and line 82 for statuses); a successful non-empty field load caches the back-filled rows |
| RequestContext.FirstRunCaches | contexts/RequestContext.tsx:59-83 | on a first run against empty tables, the field and status caches become exactly the seed rows, and the seeded fields are not back-filled |
| RequestContext.RequestStore.constructor | contexts/RequestContext.tsx:28-31 | the provider starts with empty caches and `loading` true |
| RequestContext.RequestStore.FetchRequests | contexts/RequestContext.tsx:33-43 | a successful select replaces the request cache with the table's rows; any error leaves the cache unchanged |
| RequestContext.RequestStore.FetchConfigs | contexts/RequestContext.tsx:45-87 | loads form fields, then statuses, each with seeding of an empty table; a non-empty field load is back-filled; a seeded reload is kept only if it succeeds; a failed select leaves its cache unchanged |
| RequestContext.RequestStore.LoadAll | contexts/RequestContext.tsx:89-93 | configs then requests are loaded: the field and status caches and tables follow the seeding load, the request cache becomes the table's unchanged rows after one select, or is kept when it fails, and `loading` is false once they finish |
| RequestContext.RequestStore.AddRequest | contexts/RequestContext.tsx:131-137 | the request with id `now` is prepended to the cache and then inserted remotely; after a successful insert, cache and table hold the same requests |
| RequestContext.RequestStore.UpdateRequest | contexts/RequestContext.tsx:139-144 | the cache is merged by id and the same update is sent; the table's rows are merged by id when the call succeeds and unchanged when it fails |
| RequestContext.RequestStore.DeleteRequest | contexts/RequestContext.tsx:146-151 | the cache drops the id and the same delete is sent; the table loses the rows with the id when the call succeeds and is unchanged when it fails |
| RequestContext.RequestStore.UpdateFormFields | contexts/RequestContext.tsx:153-160 | the field cache becomes exactly the given list, and one upsert per field is issued, in the list's order |
| RequestContext.RequestStore.AddFormField | contexts/RequestContext.tsx:162-175 | the new custom field is appended to the cache and then inserted |
| RequestContext.RequestStore.UpdateFormField | contexts/RequestContext.tsx:177-182 | the field cache is merged by id and the update is sent; the table's rows are merged by id when the call succeeds and unchanged when it fails |
| RequestContext.RequestStore.DeleteFormField | contexts/RequestContext.tsx:184-189 | the field cache drops the id and the delete is sent; the table loses the rows with the id when the call succeeds and is unchanged when it fails |
| RequestContext.RequestStore.AddStatus | contexts/RequestContext.tsx:191-197 | the status with id `status-<now>` is appended to the cache and inserted; the table gains it when the insert succeeds and is unchanged when it fails |
| RequestContext.RequestStore.UpdateStatus | contexts/RequestContext.tsx:199-204 | the status cache is merged by id and the update is sent; the table's rows are merged by id when the call succeeds and unchanged when it fails |
| RequestContext.RequestStore.DeleteStatus | contexts/RequestContext.tsx:206-211 | the status cache drops the id and the delete is sent; the table loses the rows with the id when the call succeeds and is unchanged when it fails |
| AuthContext.LoginFilterSpec | contexts/AuthContext.tsx:141-146 | a row passes the login filter exactly when it has that email and a stored password equal to the one given |
| AuthContext.SeededAdminLogin | constants.ts:10-14 | against the seeded users, the administrator's credentials select exactly the administrator, and the resulting session is privileged and has no password |
| AuthContext.NewSectorSpec | contexts/AuthContext.tsx:182-185 | sectors added at different times get different ids; an added sector shares an id with the seeded `sector-k` only when added at time `k`; name and description are kept |
| AuthContext.PrivilegeSpec | contexts/AuthContext.tsx:167 | `isPrivilegedUser` holds for a session exactly when its role is `admin`; removing the password does not change it; nobody signed in is never privileged; of the seeded accounts only the administrator is |
| AuthContext.AuthStore.constructor | contexts/AuthContext.tsx:28-36 | the provider starts with the user the session slot holds, empty lists, `loading` true and no error flags |
| AuthContext.AuthStore.FetchData | contexts/AuthContext.tsx:38-105 | both flags are reset first. A missing-table users error sets `missingTables`; any other users error sets the fixed connection message. Either error leaves `users` unchanged and skips the sectors table. Otherwise both lists are loaded with seeding, a reselect with no data gives `[]`, and a sectors error changes nothing. `loading` ends false |
| AuthContext.AuthStore.Login | contexts/AuthContext.tsx:137-160 | no query is made and the result is false while tables are missing. Otherwise login succeeds exactly when the select returns one row with that email and password. The session and the storage slot then both hold that row without its password |
| AuthContext.AuthStore.Logout | contexts/AuthContext.tsx:162-165 | the session is cleared in the state and in the storage slot, so the user is not privileged |
| AuthContext.AuthStore.AddUser | contexts/AuthContext.tsx:169-172 | only inserts the account with id `now`; no cache changes |
| AuthContext.AuthStore.UpdateUser | contexts/AuthContext.tsx:174-176 | only sends the update by id; no cache changes |
| AuthContext.AuthStore.DeleteUser | contexts/AuthContext.tsx:178-180 | only sends the delete by id; no cache changes |
| AuthContext.AuthStore.AddSector | contexts/AuthContext.tsx:182-185 | only inserts the sector with id `sector-<now>`; no cache changes |
| AuthContext.AuthStore.UpdateSector | contexts/AuthContext.tsx:187-189 | only sends the update by id; no cache changes |
| AuthContext.AuthStore.DeleteSector | contexts/AuthContext.tsx:191-193 | only sends the delete by id; no cache changes |
| AuthContext.LogoutThenRestart | contexts/AuthContext.tsx:28-31 | after logout, a provider started again over the same storage slot has nobody signed in |
| Dashboard.BadgeColor | pages/DashboardPage.tsx:20-23 | the badge colour is that of the first status with the name, or `gray` when no status has the name or its colour is empty |
| Dashboard.FormatDate | pages/DashboardPage.tsx:40-44 | the result is `N/A` exactly when the date is missing or empty |
| Dashboard.FormatIsoDate | pages/DashboardPage.tsx:40-44 | `Y-M-D` is shown as `D/M/Y` |
| Dashboard.CountersBounded | pages/DashboardPage.tsx:54-57 | the counts of three distinct status names sum to at most the number of requests |
| Dashboard.DashboardCounters | pages/DashboardPage.tsx:54-57 | the pending, in-progress and delivered counters sum to at most the total; each counts exactly the requests with that exact status |
| Dashboard.Recent | pages/DashboardPage.tsx:59 | the recent requests are the prefix of length min(5, number of requests) |
| Dashboard.TodayOfTimestamp | pages/DashboardPage.tsx:61 | the date part of `<date>T<time>` is `<date>` |
| Dashboard.OverdueSpec | pages/DashboardPage.tsx:107 | a delivered request is never overdue, nor one whose delivery date is today; an overdue request stays overdue on every later day |
| Dashboard.FirstNameSpec | pages/DashboardPage.tsx:68 | the first name is the part of the name before its first space, or the whole name when it has no space |
| Dashboard.Greeting | pages/DashboardPage.tsx:68 | there is a greeting name exactly when a user is signed in |
| RequestDetail.CustomValue | pages/RequestDetailPage.tsx:89 | a custom value is a stored string or undefined |
| RequestDetail.StandardFieldRendering | pages/RequestDetailPage.tsx:50-56 | a field backed by a text property of the request shows that property, as a badge with the status colour for the status field and as text otherwise; an empty property falls back to the custom value stored under the field id (line 89) |
| RequestDetail.VisibleFieldsSpec | pages/RequestDetailPage.tsx:48 | the visible fields are exactly the active fields, in their order |
| RequestDetail.PlaceholderExactly | pages/RequestDetailPage.tsx:50-51 | the placeholder appears exactly when the request's own value is falsy and no non-empty custom value is stored under the field id |
| RequestDetail.CustomFieldRendering | pages/RequestDetailPage.tsx:50-56 | a custom field with a non-empty stored value shows that value; with no stored value it shows the placeholder |
| RequestDetail.LinkShowsRequest | pages/RequestDetailPage.tsx:36-41 | the route `/requests/<id>` shows the first cached request with that id, with one row per visible field in order; it is not found exactly when no cached request has that id |
| RequestDetail.DetailViewSound | pages/RequestDetailPage.tsx:36-41 | the page shows a request only for a numeric parameter, and then a cached request with that id; it is not found exactly when the parameter is not a number or no cached request has that id |
| RequestDetail.HandleDelete | pages/RequestDetailPage.tsx:43-46 | the request is deleted from the cache, and from the table when the call succeeds; lookup by the id then finds nothing, and navigation goes to `/` |
| UsersPage.SetInput | pages/UsersPage.tsx:25-28 | an input change sets only that input's key to the value and leaves every other key unchanged |
| UsersPage.Submit | pages/UsersPage.tsx:30-39 | the submitted data is the form data, except that a falsy role becomes `user` and a falsy sector becomes `Nenhum` |
| UsersPage.SubmitSpec | pages/UsersPage.tsx:33-37 | submitting is stable, the untouched defaults submit unchanged, and an opened account submits unchanged exactly when its role and sector are non-empty |
| UsersPage.ClearedSelectFallsBack | pages/UsersPage.tsx:33-37 | clearing the role or the sector and submitting falls back to the default, leaving the other select alone |
| UsersPage.PasswordRequiredSpec | pages/UsersPage.tsx:41 | a password is required exactly when no user is given or the user's id is 0; every seeded account is edited without one |
| UsersPage.UserForm.constructor | pages/UsersPage.tsx:15 | the form starts as `{role: 'user', sector: 'Nenhum'}` |
| UsersPage.UserForm.Open | pages/UsersPage.tsx:17-21 | opening resets the form to the given user, or to the defaults when there is none; a closed form keeps its data |
| UsersPage.UserForm.HandleChange | pages/UsersPage.tsx:25-28 | the input's key takes the value and every other key is unchanged |
| UsersPage.UserForm.HandleSubmit | pages/UsersPage.tsx:30-39 | what `onSave` receives always has a non-empty role and sector |
| Seed.SeedIdsDistinct | constants.ts:4-78 | sector, user, status, form-field and request ids are pairwise distinct within their lists |
| Seed.SeedStatusNamesDistinct | constants.ts:16-22 | status names are distinct, so the colour lookup by name is unambiguous |
| Seed.SeedRequestStatusesResolve | constants.ts:35-78 | every request status and every item status of the sample requests names a seeded status |
| Seed.SeedFormFieldsShape | constants.ts:24-33 | the seven standard ids are standard, active fields; `notes` is the only non-standard field and it is inactive; no field defines `isVisibleInList` |
| Seed.SeedSingleAdmin | constants.ts:10-14 | exactly one seeded user is an administrator: `admin@empresa.com` with password `admin123` |

## Left out

- Realtime channels (subscription, reload on notification, teardown) are not modelled. They concern event delivery. A reload on a notification is a call to `FetchRequests`, `FetchConfigs` or the corresponding select.
- `RequestContext.RequestStore.LoadAll`: it runs the two fetches one after the other, configs first. The source runs them concurrently under `Promise.all`, and their orders of interleaving are not modelled.
- `RequestContext.RequestStore.FetchRequests`: the select's `order('id', desc)` is not modelled. The cache takes the table's rows in stored order.
- The `try/catch` blocks are not modelled. The remote calls here never throw, so the loads can only fail through their error results. The catch-all message in `fetchData` is therefore never set.
- Console logging and the JSON rendering of errors are left out, because they produce no state.
- `localStorage` holds JSON. The model keeps the user value itself in `SessionSlot`, with no serialisation or parsing.
- Text.ParseNumber: models `Number(s)` only for `""`, decimal digit strings and a minus sign followed by digits, read as exact integers. JavaScript rounds digit strings above 2^53 to the nearest double (`Number("9007199254740993")` is 9007199254740992); the model does not. Whitespace, a leading `+`, fractions, exponents, the `0x`, `0o` and `0b` prefixes and `Infinity` are not modelled; the model reads them as NaN. The ids the application writes are integers well below 2^53.
- The entity types follow the seed data. Unknown extra columns, `null` column values and `undefined` for missing mandatory properties are not modelled. The one exception is `isVisibleInList`, which has three states because the back-fill tests for `undefined` and keeps `null`.
- RequestDetail.ValueString: `String(value)` of the `items` array and of the `customFields` object is written as `[object Object]` per element. It is only reached for a form field whose id is `items` or `customFields`.
- JSX rendering, CSS class maps (the colour-to-style table), routing and the `Modal` and `Button` components are not modelled. The edit and delete buttons depend on `isPrivilegedUser`, which is `AuthContext.IsPrivileged`.
- The `Omit<...>` drafts passed to `addRequest` and `addUser` are modelled as full rows whose id is replaced. The drafts passed to `addStatus` and `addFormField` are modelled by their fields (name and colour; label and type), from which `NewStatus` and `NewFormField` build the row; extra keys a caller might spread into those drafts are not modelled.
- Id collisions between two calls in the same millisecond are not modelled, since the clock is a parameter.
- `pages/RequestListPage.tsx` is not part of this model; its status badge is the same as `Dashboard.BadgeColor`. The lines of `pages/UsersPage.tsx` after line 65, including where `onSave` goes, are not part of this model.
- Password handling is exact string matching only.
- Text.Less: compares characters as Unicode code points, while JavaScript compares UTF-16 code units. The two orders differ only between characters above U+FFFF and those in U+E000-U+FFFF; the compared values are ISO dates, which are ASCII.
