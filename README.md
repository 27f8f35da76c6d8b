# Threats store: a Dafny model

This project models the threats store of RAWRR's desktop client, the Vuex module in
`src/store/modules/threats.js`. The store keeps an in-memory mirror of two backend
tables, `threat_types` and `threats`, plus a `backup` flag. The backend itself is not
part of the model. The store has three parts:

- **Mutations** assign the mirror: replace-all (`setThreatTypes`, `setThreats`), append
  (`newThreatType`, `newThreat`), update-by-id (`changeThreatType`, `changeThreat`: a
  `findIndex` scan followed by a `splice` at the first match), removal (`removeThreatType`,
  `removeThreat`) and the `backup` flag.
- **Actions** take the backend's reply to one request and commit mutations. A `queryAll`
  reply that is a bare number is an error code. Code 1, code 26 and every other code
  each send their own error notification and raise `backup`. Rows replace the collection.
  The three threat writes send an error notification for an empty reply and a success
  notification otherwise, and commit the reply in both cases. The threat-type writes
  commit without any check.
- **Getters** derive names and write them into the stored rows. `getAllThreatTypes`
  writes each type's `name_translation`: the `es` entry of its name map for the locale
  "es", the `en` entry for every other locale. `getAllMergedThreats` reads that view,
  builds id-to-name tables for types and assets, and writes `threat_type_name` and
  `asset_name` into every threat.

Layout:

- `wrappers.dfy` (module `Wrappers`): `Option` (JavaScript's `undefined` is `None`) and `Result`.
- `rows.dfy` (module `Rows`): the generic positional operations. `FindIndex` is the
  `findIndex` scan. `ReplaceFirst` is the effect of an update-by-id. `LastIndex`,
  `LastValue` and `BuildTable` describe the plain-object lookup tables, where a later
  row overwrites an earlier one with the same key.
- `records.dfy` (module `Records`): the rows, the replies and the notifications, plus the
  translation keys the actions send.
- `views.dfy` (module `Views`): what the getters compute, as functions of the mirror
  (`Localized`, `AfterTypesRead`, `Joined`), with the lemmas about them.
- `threats.dfy` (module `Threats`): class `Store`, with the four state fields. Every
  mutation, action and state-writing getter is a method, proved against the functions
  above. `getAllThreats`, which only returns the stored threats, is a function.
  The module state declares no `backup` field, so it reads `undefined` (falsy) until the
  first commit. The constructor's `false` stands for that.

Modelling choices:

- A request to the backend is replaced by its reply, passed in as a parameter.
- The notification channel is an append-only log, `notifications`. A notification holds
  the translation key of its text and its colour.
- The locale is a parameter of the getters.
- The asset collection, which a sibling store owns, is a parameter of the join.
- A name map is the already-decoded map. An empty reply to a write is a row constructor
  of its own (`EmptyTypeReply`, `EmptyThreatReply`), because the actions commit it into
  the mirror. Its id, type id and asset id read as `undefined`.
- `JSON.parse` of an empty reply's missing name throws. So `getAllThreatTypes` stops at
  the first such row and reports `NameNotParsable`. The rows before that one are already
  translated, because the loop writes in place. The join, which reads that getter, then
  fails before touching any threat.

What the code does that a reader might not expect:

- Removal changes nothing. `removeThreatType` and `removeThreat` compute `filter` and
  drop the result. The filter also compares each row's id with the whole reply rather
  than with its id. So `deleteThreatType` and `deleteThreat` never shrink the mirror.
- Only the failed `queryAll` branches and the three threat writes send a notification.
  The threat-type writes send none, and neither does a successful `queryAll`.
- Only the `queryAll` error codes raise `backup`. An empty reply to a write does not.

## Model

| member | source | states |
|---|---|---|
| Rows.FindIndex | src/store/modules/threats.js:194-196 | Returns -1 exactly when no row has the key. Otherwise it returns an index whose row has the key, and no earlier row has it. |
| Rows.ReplaceFirst | src/store/modules/threats.js:193-200 | An update by key keeps the list's length. |
| Rows.ReplaceFirstAt | src/store/modules/threats.js:197-199 | When `i` is the first row with the update's key, the update replaces position `i` only. |
| Rows.ReplaceFirstMissing | src/store/modules/threats.js:197 | When no row has the update's key, the list is unchanged. |
| Rows.ReplaceFirstOverwrites | src/store/modules/threats.js:205-212 | Two updates with the same key applied back to back give the list the second alone gives, whatever their payloads: the second overwrites the first. |
| Rows.ReplaceFirstIdempotent | src/store/modules/threats.js:193-200 | Applying the same update twice gives the same list as applying it once. |
| Rows.LastIndex | src/store/modules/threats.js:39-45 | Gives the last index whose row has the key, or -1 exactly when no row has it. |
| Rows.LastValue | src/store/modules/threats.js:39-49 | A table read gives the value of the last row with that key, and undefined when no row has the key. |
| Rows.Lookup | src/store/modules/threats.js:48-49 | Reading a key the table lacks gives undefined. A defined read comes from the table's entry for that key. |
| Rows.BuildTable | src/store/modules/threats.js:36-45 | The table built row by row holds exactly the keys of the rows. Each key reads as the value of its last row. |
| Records.ImportErrorKey | src/store/modules/threats.js:59-85 | Code 1 gives the missing-table key and code 26 the not-a-database key. Every other code gives the unknown-error key. All three hold in both directions. |
| Records.ImportErrorKeysDistinct | src/store/modules/threats.js:113-139 | Codes 1, 26 and any other code give three different translation keys. |
| Records.WriteNote | src/store/modules/threats.js:146-155 | A threat write's notification has the colour "error" exactly when the reply is empty. It has no colour exactly when the reply is non-empty. |
| Records.WriteKey | src/store/modules/threats.js:146-183 | A threat write's key is one of the three error keys (insert, delete, edit) exactly when the write failed, and one of the three success keys exactly when it succeeded. |
| Records.IsEmptyReply | src/store/modules/threats.js:146 | A reply counts as empty exactly when it is the empty reply, the one row without an id. A record has no `length`, so it never counts as empty. |
| Views.LocaleEntry | src/store/modules/threats.js:13-25 | The locale "es" reads the `es` entry, and every other locale reads the `en` entry. |
| Views.Translation | src/store/modules/threats.js:16-23 | The translation is defined exactly when the name map has the locale's entry, and is then that entry's text. |
| Views.Localize | src/store/modules/threats.js:15-24 | A record keeps its id and name map and gets the translation for the locale. An empty reply is left as it is. |
| Views.Localized | src/store/modules/threats.js:15-24 | The locale-aware view keeps the number of types. |
| Views.LocalizedAt | src/store/modules/threats.js:13-24 | Each type keeps its position, id and name map. Its translation is the `es` entry for the locale "es" and the `en` entry for any other locale. |
| Views.FirstUnparsable | src/store/modules/threats.js:16-22 | The getter's loop stops at the first row whose name cannot be parsed. Every earlier row is a record. |
| Views.LocalizedIdempotent | src/store/modules/threats.js:10-28 | Translating the translated types again under the same locale changes nothing. |
| Views.LocalizedIgnoresStaleTranslations | src/store/modules/threats.js:15-24 | The translations depend only on the ids, the name maps and the locale, not on earlier translations. |
| Views.FirstUnparsableLocalized | src/store/modules/threats.js:16-22 | Translating keeps the parse failure at the same row. |
| Views.AfterTypesRead | src/store/modules/threats.js:10-28 | One read of the view keeps the number of stored types. |
| Views.TypesReadIdempotent | src/store/modules/threats.js:10-28 | A second read under the same locale fails at the same row and leaves the stored types as the first read left them. |
| Views.FirstUnparsableAppend | src/store/modules/threats.js:15-24 | After a prefix that parses throughout, the loop's stopping row is found in the rest. |
| Views.Joined | src/store/modules/threats.js:47-52 | The join returns one threat for every threat. |
| Views.JoinedAt | src/store/modules/threats.js:47-50 | Every joined threat keeps its position and every field except the two names. Its type name is what the type table holds for its type id, and its asset name what the asset table holds for its asset id. |
| Views.JoinedTypeName | src/store/modules/threats.js:39-48 | A threat's type name is the translation of the last type with its type id. |
| Views.JoinedUnresolved | src/store/modules/threats.js:48-49 | An unresolved type id or asset id leaves that name undefined, and the threat stays. |
| Views.JoinedIdempotent | src/store/modules/threats.js:30-53 | Joining an already joined list against the same collections changes nothing. |
| Views.SpanishExample | src/store/modules/threats.js:14-18 | Under "es", the type named "Spoofing"/"Suplantación" reads "Suplantación". |
| Views.JoinExample | src/store/modules/threats.js:30-53 | Threat 5, with type 1 ("Spoofing") and asset 9 ("Server A"), gets both names. |
| Threats.Store.constructor | src/store/modules/threats.js:4-7 | The mirror starts with both collections empty, the flag down and no notification sent. |
| Threats.Store.SetThreatTypes | src/store/modules/threats.js:189 | The types become exactly the given rows, in order. Nothing else changes. |
| Threats.Store.NewThreatType | src/store/modules/threats.js:190 | The types grow by one. The earlier rows stay in place and the last row is the argument. Nothing else changes. |
| Threats.Store.RemoveThreatType | src/store/modules/threats.js:191-192 | The store is left unchanged. |
| Threats.Store.ChangeThreatType | src/store/modules/threats.js:193-200 | The types become the update by key of the old types. Nothing else changes. |
| Threats.Store.SetThreats | src/store/modules/threats.js:201 | The threats become exactly the given rows, in order. Nothing else changes. |
| Threats.Store.NewThreat | src/store/modules/threats.js:202 | The threats grow by one. The earlier rows stay in place and the last row is the argument. Nothing else changes. |
| Threats.Store.RemoveThreat | src/store/modules/threats.js:203-204 | The store is left unchanged. |
| Threats.Store.ChangeThreat | src/store/modules/threats.js:205-212 | The threats become the update by key of the old threats. Nothing else changes. |
| Threats.Store.Backup | src/store/modules/threats.js:213 | The flag takes the given value. Nothing else changes. |
| Threats.Store.Notify | src/store/modules/threats.js:63-66 | Exactly one notification is appended to the log. Nothing else changes. |
| Threats.Store.ReportImportError | src/store/modules/threats.js:60-85 | The code's error notification is appended with the colour "error", and the flag is raised. The mirror is untouched. |
| Threats.Store.FetchAllThreatTypes | src/store/modules/threats.js:57-89 | A code appends one coded error notification and raises the flag, leaving the types untouched. Rows replace the types and leave the flag and the log as they were. |
| Threats.Store.AddThreatType | src/store/modules/threats.js:90-96 | The reply is appended to the types, with no notification. |
| Threats.Store.DeleteThreatType | src/store/modules/threats.js:97-103 | The store is left unchanged, with no notification. |
| Threats.Store.UpdateThreatType | src/store/modules/threats.js:104-110 | The reply replaces the first type with its id, with no notification. |
| Threats.Store.FetchAllThreats | src/store/modules/threats.js:111-143 | A code appends one coded error notification and raises the flag, leaving the threats untouched. Rows replace the threats and leave the flag and the log as they were. |
| Threats.Store.ReportWrite | src/store/modules/threats.js:146-155 | Exactly one notification for the verb is appended. It is an error exactly when the reply is empty. |
| Threats.Store.AddThreat | src/store/modules/threats.js:144-157 | One insert notification is appended, an error exactly when the reply is empty. The reply is appended to the threats in both cases. The flag is unchanged. |
| Threats.Store.DeleteThreat | src/store/modules/threats.js:158-171 | One delete notification is appended, an error exactly when the reply is empty. The mirror and the flag are unchanged. |
| Threats.Store.UpdateThreat | src/store/modules/threats.js:172-185 | One edit notification is appended, an error exactly when the reply is empty. The reply replaces the first threat with its id in both cases. |
| Threats.Store.GetAllThreatTypes | src/store/modules/threats.js:10-28 | The stored types become one read of the locale-aware view. The result is that collection, or the parse failure at the first unparsable row. |
| Threats.Store.GetAllThreats | src/store/modules/threats.js:29 | Returns the stored threats, unmodified. |
| Threats.Store.GetAllMergedThreats | src/store/modules/threats.js:30-53 | The types are read as by `getAllThreatTypes`. If that read fails, the threats are untouched and the error names the first unparsable row. Otherwise the stored threats become their join with the translated types and the assets, and they are returned. |

## Left out

- The Electron bridge (`ipcRenderer.sendSync`) is foreign I/O. Each action takes the reply as a parameter, and the request payload it would have sent is not modelled.
- `i18n.t` and `i18n.locale` belong to a foreign library. Notifications carry their translation keys, and the locale is a parameter.
- `JSON.parse` is a library decoder, so a name map is already decoded. The one parse failure modelled is the missing name of an empty reply. Malformed JSON text and JSON that is not an object are not modelled.
- Vuex plumbing is not modelled: `commit`, `dispatch`, the no-op read `rootState.fetchAllAssets`, and the caching of getter results. The model runs a getter on every read. `Views.TypesReadIdempotent` and `Views.JoinedIdempotent` show that this makes no difference to the mirror.
- Actions are modelled as sequential. The `async`/`await` scheduling is not modelled.
- Aliasing is not modelled. The mirror holds row values, so the model does not capture that `setThreats` stores the reply array itself, or that the getters' writes land in row objects their callers share.
- `QueryReply`: a numeric reply that is not finite (`NaN`, `Infinity`) fails `Number.isFinite`. The source would commit it as the collection, which a list of rows cannot hold. A fractional code is not modelled either, but it would take the default branch like any other code.
- A write reply is one record or the empty reply. Two other replies are not modelled. A non-empty array reply is one. A bare numeric error code is the other: `(n).length == 0` is false, so `addThreat`, `deleteThreat` and `updateThreat` would report success and commit the number, pushing it or using it as an update.
- Ids are integers. JavaScript's conversion of object keys to strings, and the inherited keys of a plain object, play no part.
- Threats.Store.RemoveThreat: the list that `filter` computes and drops is not built. Only the fact that the store is unchanged is stated (the same holds for `Threats.Store.RemoveThreatType`).
