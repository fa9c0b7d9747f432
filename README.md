# ScreenVault core, modelled in Dafny

ScreenVault is an Electron desktop screenshot manager. It captures the
screen, keeps screenshots in a local SQLite database and shows them in a
React gallery. The gallery supports search, views, favourites, tags, notes,
OCR-generated names and tags, and an annotation editor. This project models
the deterministic core of the application and proves what that core
promises:

- `IconResize` (`resize_icon.dfy`) covers the build-time icon script. It
  crops to the content bounding box, scales the content to fit 832×832 with
  the short side truncated, and centres it on a 1024×1024 canvas.
- `Editor` (`editor.dfy`) covers the annotation editor:
  - the undo/redo history and its cursor;
  - annotation transforms (drag, crop shift, delete, property update);
  - topmost-first selection with the rectangle hit test;
  - crop-handle clamping.
- `Ocr` (`ocr.dfy`) covers the OCR post-processing that names a file
  (`generateSmartFilename`) and tags it (`generateTags`).
- `Gallery` (`gallery.dfy`) covers `loadScreenshots`, the optimistic list
  updates and the relative-date label:
  - the newest-first sort, the fallback query and the view filter;
  - query tokenising and the conjunctive text/tag search.
- `ScreenshotModal` (`screenshot_modal.dfy`) covers the detail dialog:
  - the note history, tag append/remove and the optimistic favourite toggle;
  - the Enter-key handling and the normalisation of SQLite timestamps.
- `DbClient` (`db_client.dfy`) covers the renderer's query builder: order-by
  normalisation, id filling on insert and `single`/`maybeSingle`.
- `Ipc` (`ipc.dfy`) holds the `db:query` request and reply shapes shared
  by the renderer and the main process.
- `LocalDatabase` (`local_database.dfy`) covers the main process's
  database module:
  - version parsing and the string-valued comparison that decides which
    migrations run;
  - the migration runner, the fresh-install path and the `note_history`
    backfill.
- `MainProcess` (`main_process.dfy`) covers parts of the Electron main
  process:
  - the screenshot file name;
  - the `db:query` handler's SQL text and parameter list, value encoding and
    row normalisation;
  - the auth session handlers.

Supporting modules define the shared vocabulary:

- `Wrappers` has `Option` and `Result`.
- `Seqs` has map, filter, count, dedup, take and a stable descending sort.
- `Strings` has trim, lower-casing, substring search, join and decimal
  digits.
- `Tokens` has splitting on separator runs.
- `JsValues` covers JavaScript values and their truthiness, `Object.assign`,
  and an abstract JSON encode/decode pair that round-trips.

Time, randomness, hashing, storage results and user confirmation enter the
model as parameters. Each stateful component of the source is a `class`
whose methods change exactly the fields the source changes:

- the editor's state hooks;
- the gallery's and the modal's state;
- the main-process session;
- the database module's handle;
- the icon file.

## Model

| member | source | states |
|---|---|---|
| IconResize.IconFile.ResizeIcon | resize_icon.py:4-50 | A missing file gives `MissingFile` and a fully transparent image gives `EmptyImage`; both leave the image untouched. Content beyond 832:1 gives `ZeroSize`. Otherwise the image becomes the 1024×1024 canvas with the content at `Place`'s size and offsets. |
| IconResize.ScaleShort | resize_icon.py:32-37 | The scaled short side is the floor of 832·short/long: `q·long <= 832·short < (q+1)·long`, with `1 <= q <= 832`. |
| IconResize.ScaleShortBounds | resize_icon.py:32-37 | The truncating division is the floor quotient and lies between 1 and 832 when the content fits. |
| IconResize.Place | resize_icon.py:29-44 | Wide content gets width 832 and height ⌊832h/w⌋; otherwise height 832 and width ⌊832w/h⌋; both sides lie in 1..832. |
| IconResize.ZeroSide | resize_icon.py:32-37 | The short side truncates to 0 exactly when the content is more than 832:1, which is the `ZeroSize` case. |
| IconResize.WideBelowTarget | resize_icon.py:32-34 | Wider-than-tall content gets a height strictly below 832. |
| IconResize.Centred | resize_icon.py:43-44 | Offsets are at least 96, offset + size <= 1024 on both axes, and the far margin equals the near one or exceeds it by 1. |
| IconResize.AspectKept | resize_icon.py:32-37 | The placed size keeps the content's aspect ratio up to the truncation of the short side. |
| IconResize.SquareFillsArtArea | resize_icon.py:35-37 | Square content becomes 832×832 at offset (96, 96). |
| IconResize.TruncationExamples | resize_icon.py:34-37 | The short side truncates and is never rounded: 800×400 gives 832×416 and 3:1 gives 832×277. |
| Editor.Translate | src/components/Editor.tsx:369-387 | Moving an annotation keeps its id, colour, size, kind and text. |
| Editor.TranslateCompose | src/components/Editor.tsx:369-387 | Two successive drags equal one drag by the summed offsets. |
| Editor.TranslateZero | src/components/Editor.tsx:369-387 | A zero drag leaves the annotation unchanged. |
| Editor.ShiftAllKeeps | src/components/Editor.tsx:458-464 | The crop shift keeps each annotation's id, colour, size and text, and shifting back restores the list. |
| Editor.MoveSelectedCompose | src/components/Editor.tsx:369-387 | Successive drag events compose into one drag by the total offset. |
| Editor.DeleteByIdSpec | src/components/Editor.tsx:524-530 | Deleting removes exactly the annotations with the id and keeps the rest. An absent id changes nothing, and deleting twice equals deleting once. |
| Editor.SetPropertySpec | src/components/Editor.tsx:532-543 | A property update changes the colour or size of the selected annotations only, and is idempotent. |
| Editor.FindById | src/components/Editor.tsx:331-338 | Finds the first annotation with the id, or `None` iff there is none. |
| Editor.RectHitBetweenCorners | src/components/Editor.tsx:292-297 | A rectangle hit means the point is within 15 of the box spanned by the two corners, for either sign of width and height. |
| Editor.RectHitSymmetric | src/components/Editor.tsx:292-297 | The rectangle hit test does not depend on the drawing direction, so negative sizes are normalised. |
| Editor.HitTest | src/components/Editor.tsx:290-314 | The hit test per annotation kind: rectangles are checked against the widened box, and pens and arrows use the segment-distance test passed in. |
| Editor.Topmost | src/components/Editor.tsx:321-329 | Selection returns `None` iff nothing is hit. Otherwise it returns the id of the last (topmost) annotation that is hit. |
| Editor.CropHandleMove | src/components/Editor.tsx:724-754 | After a handle drag the width and height are at least 10. A `move` drag shifts x and y and keeps the size. Each other handle moves exactly the edges its letters name. |
| Editor.CropCornerDrag | src/components/Editor.tsx:724-754 | Dragging the north-west corner keeps the opposite corner fixed unless clamped. Dragging the south-east corner keeps the origin fixed. |
| Editor.EditorState.Init | src/components/Editor.tsx:92-101 | The history starts with one entry holding the loaded image and no annotations, and the crop rectangle covers the whole image. |
| Editor.EditorState.PushHistory | src/components/Editor.tsx:132-153 | Drops every entry after the cursor, appends the new state and moves the cursor to the new last entry, so redo is unavailable. |
| Editor.EditorState.RestoreState | src/components/Editor.tsx:171-181 | Restores the snapshot's annotations and image. The crop rectangle resets only when the image changes. |
| Editor.EditorState.Undo | src/components/Editor.tsx:155-161 | At step 0 nothing changes. Otherwise the cursor moves back one and that entry's annotations and image are restored; the crop rectangle is kept when the image is the same and reset to the full image otherwise. The history is never changed. |
| Editor.EditorState.Redo | src/components/Editor.tsx:163-169 | At the last entry nothing changes. Otherwise the cursor moves forward one and that entry's annotations and image are restored; the crop rectangle is kept when the image is the same and reset to the full image otherwise. The history is never changed. |
| Editor.EditorState.UndoThenRedo | src/components/Editor.tsx:155-172 | Undo followed by redo returns to the same step with that entry's annotations. |
| Editor.EditorState.PushThenRedo | src/components/Editor.tsx:142-169 | After a push, redo has no effect: the cursor stays on the pushed entry. |
| Editor.EditorState.SetActiveTool | src/components/Editor.tsx:571-580 | Choosing a tool changes only the active tool. |
| Editor.EditorState.MouseDown | src/components/Editor.tsx:316-363 | Starts a drag at the point. In select mode it selects the topmost hit, adopting its colour and size, or clears the selection. Drawing tools start a new annotation of their kind. |
| Editor.EditorState.MouseMove | src/components/Editor.tsx:365-404 | During a select drag only the selected annotation moves, with no history entry. A pen extends its path, and a rectangle or arrow follows the pointer. |
| Editor.EditorState.MouseUp | src/components/Editor.tsx:406-412 | Ends the drag. A drawn annotation is appended and pushed to the history. A select drag pushes nothing. |
| Editor.EditorState.ApplyCrop | src/components/Editor.tsx:447-471 | Shifts every annotation by the crop origin, pushes exactly one entry carrying the new image and returns to the select tool. |
| Editor.EditorState.Delete | src/components/Editor.tsx:524-530 | With a selection, removes its annotations, pushes the result and clears the selection. With none, nothing changes. |
| Editor.EditorState.UpdateSelectedProperty | src/components/Editor.tsx:532-543 | Sets the current colour or size. With a selection, it also updates that annotation and pushes the result. |
| Ocr.SmartFilename | src/lib/ocr.ts:20-43 | Text shorter than 10 characters returns the original name unchanged. |
| Ocr.CleanWords | src/lib/ocr.ts:25-28 | Rewriting non-word characters as spaces, collapsing whitespace and trimming gives exactly the runs of word characters. |
| Ocr.FilenameWordsSpec | src/lib/ocr.ts:30-32 | The filename words are the first 5 word-character runs longer than 3 characters. |
| Ocr.SmartFilenameSpec | src/lib/ocr.ts:20-43 | With no surviving word the name is unchanged. Otherwise it is the lower-cased words joined by `_`, then `_`, the date, `.` and the original extension. |
| Ocr.ExtensionAfterLastDot | src/lib/ocr.ts:38-42 | The extension is the text after the last dot of the original name. |
| Ocr.TagWordsSpec | src/lib/ocr.ts:57-61 | The tag candidates are the lower-cased word runs longer than 3 characters that are not stop-words. |
| Ocr.Frequencies | src/lib/ocr.ts:63-66 | There is one frequency entry per distinct word, in first-appearance order. |
| Ocr.Find | src/lib/ocr.ts:63-66 | Looks up a word's entry: the first index holding it, or `None` iff it is absent. |
| Ocr.FrequenciesSnoc | src/lib/ocr.ts:63-66 | Counting one more word increments its entry, or appends a new entry with count 1. |
| Ocr.CountSeen | src/lib/ocr.ts:63-66 | A word that was seen before increments its own count and no other. |
| Ocr.CountNew | src/lib/ocr.ts:63-66 | A word not seen before is appended with count 1. |
| Ocr.CountWords | src/lib/ocr.ts:63-66 | The counting loop computes exactly the frequency table. |
| Ocr.Keywords | src/lib/ocr.ts:68-71 | At most 5 keywords. |
| Ocr.KeywordsRanking | src/lib/ocr.ts:68-71 | The keywords are the first 5 of the frequency table sorted by descending count. The sort is a stable permutation, so ties keep first-appearance order. |
| Ocr.KeywordsAreCandidates | src/lib/ocr.ts:57-71 | Every keyword is a candidate word, and every entry counts exactly that word's occurrences. |
| Ocr.CategoryTests | src/lib/ocr.ts:73-90 | Each category fires iff one of its trigger substrings occurs in the lower-cased text. |
| Ocr.DetectTypes | src/lib/ocr.ts:73-90 | The detection loop pushes the fired categories in the fixed order error, code, design, web, email. |
| Ocr.DetectedIff | src/lib/ocr.ts:73-90 | A category name is detected iff its triggers fire. |
| Ocr.DetectedDistinct | src/lib/ocr.ts:73-90 | At most 5 detected categories, with no duplicates. |
| Ocr.GenerateTags | src/lib/ocr.ts:45-93 | Text shorter than 10 characters gives no tags. Otherwise the tags are the deduplicated detected categories followed by the keywords. |
| Ocr.TagsSpec | src/lib/ocr.ts:45-93 | The tags have no duplicates and at most 10 entries. The detected categories come first, and every tag is a category or a keyword. |
| Gallery.NewestFirstSpec | src/components/Gallery.tsx:43-47 | The sort orders rows newest first by `created_at`, counting unparsable times as 0. It is a permutation and stable. |
| Gallery.ViewFilter | src/components/Gallery.tsx:63-78 | Keeps exactly the rows in the view: favourites, archived, recent after the cut-off, a folder, or everything. |
| Gallery.AllViewKeepsRows | src/components/Gallery.tsx:63-78 | The `all` view keeps every row in order. |
| Gallery.FolderView | src/components/Gallery.tsx:75-78 | Any other view name keeps exactly the rows whose folder id equals it. |
| Gallery.FilterKeepsOrder | src/components/Gallery.tsx:63-78 | Filtering keeps the newest-first order. |
| Gallery.DropHash | src/components/Gallery.tsx:99-102 | At most one leading `#` is removed. |
| Gallery.TokenizeSpec | src/components/Gallery.tsx:99-102 | The tokens are the separator-free words of the query, each with one leading `#` removed; they are non-empty and contain no whitespace or comma. |
| Gallery.PickTags | src/components/Gallery.tsx:88-95 | The tag list is the custom tags followed by the AI tags, lower-cased. |
| Gallery.Search | src/components/Gallery.tsx:105-124 | Keeps exactly the rows that match every token. |
| Gallery.NoTokensKeepRows | src/components/Gallery.tsx:97-124 | A query with no tokens leaves the rows unchanged. |
| Gallery.RowMatchesConcat | src/components/Gallery.tsx:115 | A row matches a token list iff it matches each part. |
| Gallery.SearchConcat | src/components/Gallery.tsx:105-124 | Searching for `a + b` equals searching for `a` and then for `b`. |
| Gallery.MoreTokensFewerRows | src/components/Gallery.tsx:105-124 | Adding tokens never enlarges the result. |
| Gallery.TagToken | src/components/Gallery.tsx:116-120 | A `tag:` token matches iff some lower-cased tag contains the rest of the token. |
| Gallery.ContainsAcrossSpace | src/components/Gallery.tsx:106-111 | A token without spaces occurs in two space-joined texts iff it occurs in one of them. |
| Gallery.PlainToken | src/components/Gallery.tsx:106-122 | Any other token matches iff it occurs in the file name, OCR text, description, notes or some tag. |
| Gallery.ViewThenText | src/components/Gallery.tsx:63-124 | The view filter followed by the text filter keeps the order, and keeps exactly the matching rows in the view. |
| Gallery.SearchKeepsOrder | src/components/Gallery.tsx:105-124 | The search keeps the newest-first order. |
| Gallery.ShownSpec | src/components/Gallery.tsx:23-135 | When the first query returns rows, the shown list is newest first. It holds a row iff the row came back, is in the view and matches the query. |
| Gallery.FallbackRows | src/components/Gallery.tsx:50-58 | The fallback keeps at most 1000 rows, each one returned by the unfiltered query; when it returned no more than 1000, it keeps all of them. |
| Gallery.FallbackNewest | src/components/Gallery.tsx:55-58 | The kept fallback rows are newest first, and no row left beyond the limit is newer than a kept one. |
| Gallery.FallbackSpec | src/components/Gallery.tsx:50-124 | With an empty first result, the list is newest first and holds a row iff it is among the kept fallback rows, is in the view and matches the query; under the limit the kept rows are exactly the fallback's. |
| Gallery.WithFavorite | src/components/Gallery.tsx:144-146 | Only the row with the given id gets the new favourite flag. |
| Gallery.Without | src/components/Gallery.tsx:163-166 | Removes exactly the rows with the id. |
| Gallery.WithFavoriteTwice | src/components/Gallery.tsx:144-159 | A second flag update overrides the first. |
| Gallery.RollbackRestores | src/components/Gallery.tsx:153-159 | Rolling back to the shot's old flag restores the list. |
| Gallery.WithoutAfterFavorite | src/components/Gallery.tsx:144-166 | Removing a row after flagging it equals removing it outright. |
| Gallery.GalleryState.LoadScreenshots | src/components/Gallery.tsx:23-135 | Ends with loading off, showing the computed rows, or the old list when the fallback query failed. |
| Gallery.GalleryState.ToggleFavorite | src/components/Gallery.tsx:137-167 | Flips the row's flag optimistically. An unfavourited row leaves the favourites view. A failed update rolls the flag back. |
| Gallery.GalleryState.DeleteScreenshot | src/components/Gallery.tsx:169-198 | Without confirmation nothing changes. A confirmed delete removes the row, and a failed one restores the previous list. |
| Gallery.RelativeLabels | src/components/Gallery.tsx:273-284 | 2–6 days reads `N days ago` with the day count. 7–29 days reads `N weeks ago` with N = ⌊days/7⌋ in 1..4. |
| Gallery.TodayWithinADay | src/components/Gallery.tsx:273-284 | The label is `Today` iff the dates are less than a day apart. |
| ScreenshotModal.WithNote | src/components/ScreenshotModal.tsx:100-108 | A blank note is ignored. Otherwise the trimmed note goes at the front and older notes keep their order. |
| ScreenshotModal.WithTag | src/components/ScreenshotModal.tsx:137-140 | A blank tag is ignored. Otherwise the trimmed tag is appended at the end. |
| ScreenshotModal.WithTagCounts | src/components/ScreenshotModal.tsx:137-140 | Appending allows duplicates: the trimmed tag's count rises by exactly one. |
| ScreenshotModal.WithoutTag | src/components/ScreenshotModal.tsx:154-155 | Removes every copy of the tag and keeps the others. |
| ScreenshotModal.WithoutTagSpec | src/components/ScreenshotModal.tsx:154-155 | The other tags keep their counts, and removal works piecewise over concatenation, so order is kept. |
| ScreenshotModal.AddThenRemove | src/components/ScreenshotModal.tsx:137-166 | Adding a tag and then removing it leaves the list without that tag. |
| ScreenshotModal.Toggled | src/components/ScreenshotModal.tsx:77-98 | On failure the flag is reverted. On success it flips and reports +1 iff the item is now a favourite, else −1. |
| ScreenshotModal.ToggleTwice | src/components/ScreenshotModal.tsx:77-98 | Two successful toggles restore the flag, and their reported deltas cancel. |
| ScreenshotModal.NormalizeSpec | src/components/ScreenshotModal.tsx:124-127 | A timestamp with `Z` or `+` is kept. Otherwise `Z` is appended. The result always has a zone, and normalising is idempotent. |
| ScreenshotModal.SqliteTimestamp | src/components/ScreenshotModal.tsx:179-183 | SQLite's `date time` becomes `dateTtimeZ`. |
| ScreenshotModal.ModalState.ToggleFavorite | src/components/ScreenshotModal.tsx:77-98 | The flag and the reported delta follow `Toggled`, and nothing else changes. |
| ScreenshotModal.ModalState.AddNote | src/components/ScreenshotModal.tsx:100-121 | History and input change only for a non-blank note whose update succeeded. |
| ScreenshotModal.ModalState.AddTag | src/components/ScreenshotModal.tsx:137-152 | Tags and input change only for a non-blank tag whose update succeeded. |
| ScreenshotModal.ModalState.RemoveTag | src/components/ScreenshotModal.tsx:154-166 | Tags change only on success, by removing every copy. |
| ScreenshotModal.ModalState.HandleKeyDown | src/components/ScreenshotModal.tsx:70-75 | Enter outside IME composition runs the add action; every other key changes nothing. |
| DbClient.NormalizeDirection | src/lib/database.ts:71-85 | No order-by gives no direction. |
| DbClient.ExplicitDirectionWins | src/lib/database.ts:74-77 | An explicit direction takes precedence over `ascending`. |
| DbClient.DirectionIgnoresCase | src/lib/database.ts:74-77 | An explicit direction is `asc` iff it lower-cases to `asc`; anything else is `desc`. |
| DbClient.AscendingFallback | src/lib/database.ts:79-84 | Without a direction, `ascending` true gives `asc`, and false or absent gives `desc`. |
| DbClient.ToIpcOrderBy | src/lib/database.ts:87-93 | A missing or empty column gives no order-by. Otherwise the column is trimmed and the direction is `ASC` or `DESC`. |
| DbClient.IpcDirectionAgrees | src/lib/database.ts:87-93 | The direction is `ASC` exactly when the normalised direction is ascending. |
| MainProcess.SelectPayloadStatement | src/lib/database.ts:103-117 | The SQL a `select(options)` runs depends only on the table and the filter: two options with the same filter run the same statement, whatever their order-by and paging. |
| MainProcess.EqQueryStatement | src/lib/database.ts:130-147 | `eq(column, value)` runs `SELECT * FROM t WHERE column = ?` with `[value]` as its parameters. |
| DbClient.MaybeSingle | src/lib/database.ts:139-147 | With a present first row, returns that row; otherwise (not an array, empty, or a nullish first item) returns null. The error is passed through. |
| DbClient.Single | src/lib/database.ts:148-159 | A truthy first row is returned with the query's error. Otherwise the data is null and the error is the query's, or `No rows found` when there was none. |
| DbClient.SingleAgreesWithMaybeSingle | src/lib/database.ts:139-159 | `single` returns a row iff the first row is truthy, and then agrees with `maybeSingle`. Without one it always reports an error. A present but falsy first row is returned by `maybeSingle` and refused by `single`. |
| DbClient.OrderLimitDirection | src/lib/database.ts:163-176 | `order().limit` sends `asc` iff `ascending` is truthy, and `desc` when no options are given. |
| MainProcess.UpdateSelectStatement | src/lib/database.ts:213-226 | `update(data).eq(column, value)` fails iff `data` is nullish. Otherwise it sets each key of `data` and filters on `column = ?`; the encoded data values come first and `value` last. The reply echoes `data` with the query's error. |
| MainProcess.DeleteQueryStatement | src/lib/database.ts:229-238 | `delete().eq(column, value)` runs `DELETE FROM t WHERE column = ?` with `[value]`, and never fails for lack of a filter. |
| DbClient.WithIdSpec | src/lib/database.ts:184-190 | `id` is the first key. An explicit `id` wins over the generated one, and other keys keep their values. |
| DbClient.GeneratedIdShared | src/lib/database.ts:184-190 | Every item without an `id` gets the same generated id. |
| DbClient.InsertQueries | src/lib/database.ts:192-199 | One insert query per array item (one for a single object), all on the same table. |
| DbClient.InsertSelect | src/lib/database.ts:181-210 | Items are inserted in order, each with its filled id, and the reply echoes the filled data with no error. |
| LocalDatabase.NumberOf | electron/database.js:230-232 | A blank part converts to 0. |
| LocalDatabase.LexLessIrreflexive | electron/database.js:221-228 | The text comparison is irreflexive. |
| LocalDatabase.LexLessAsymmetric | electron/database.js:221-228 | The text comparison is asymmetric. |
| LocalDatabase.LexLessTotal | electron/database.js:221-228 | Distinct texts are comparable. |
| LocalDatabase.NeverRerunsCurrent | electron/database.js:221-228 | A migration never runs for the version already stored. |
| LocalDatabase.RunsOneWay | electron/database.js:221-228 | If a migration runs from `a` to `b`, none runs from `b` to `a`. |
| LocalDatabase.OrdersDistinctVersions | electron/database.js:221-228 | Versions whose parsed texts differ are ordered one way or the other. |
| LocalDatabase.ComparesAsText | electron/database.js:224-227 | The comparison is textual: from 1.0.10 the 1.0.2 migration would still run. |
| LocalDatabase.KnownVersions | electron/database.js:166-228 | 1.0.0 < 1.0.1 < 1.0.2 under the comparison, and no known version reruns itself or an earlier one. |
| LocalDatabase.VersionOf | electron/database.js:82-89 | A version is read only from a stored row. |
| LocalDatabase.Init | electron/database.js:34-56 | Every init overwrites `install_id`, `install_date` and `app_version`. |
| LocalDatabase.MigrateSkipsAll | electron/database.js:221-222 | With no stored version, no migration runs. |
| LocalDatabase.MigrateTwo | electron/database.js:212-218 | The runner tries the two migrations in list order against the version read at the start. |
| LocalDatabase.FreshInstall | electron/database.js:58-80 | A fresh database gets the initial tables and version 1.0.0, with no migration in the same init. |
| LocalDatabase.MigrateFromInitial | electron/database.js:166-219 | From 1.0.0 both migrations run, each recording its own version. |
| LocalDatabase.InitSchemaAt | electron/database.js:58-80 | An existing database only runs the migrations. |
| LocalDatabase.UpgradeFromInitial | electron/database.js:34-219 | Opening a 1.0.0 database ends at 1.0.2 with the settings table and the `note_history` column. Rows are backfilled only if the column was absent. |
| LocalDatabase.UpToDate | electron/database.js:34-219 | Opening a 1.0.2 database runs nothing and only rewrites the metadata. |
| LocalDatabase.TwoLaunches | electron/database.js:58-80 | A fresh install reaches 1.0.2 only on the second launch. |
| LocalDatabase.BackfilledRows | electron/database.js:187-205 | Each row with non-empty notes gets a one-entry history of its notes and creation time; other rows get `[]`. |
| LocalDatabase.BackfilledIds | electron/database.js:187-205 | The backfill keeps row ids distinct. |
| LocalDatabase.MigrateWellFormed | electron/database.js:166-219 | Migrations keep the store well formed and never drop a table. |
| LocalDatabase.InitWellFormed | electron/database.js:34-80 | Init keeps the store well formed. |
| LocalDatabase.PartialStep | electron/database.js:198-204 | Each backfill update touches only its own row. |
| LocalDatabase.PartialAll | electron/database.js:182-209 | Updating every selected row in turn yields the backfilled table. |
| LocalDatabase.DatabaseModule.InitDatabase | electron/database.js:34-56 | Opens the database and applies `Init`. |
| LocalDatabase.DatabaseModule.InitializeDatabaseSchema | electron/database.js:58-80 | Applies the fresh-install or migration path. |
| LocalDatabase.DatabaseModule.GetDatabaseVersion | electron/database.js:82-89 | Returns the stored version, or nothing when there is no metadata row or no open handle. |
| LocalDatabase.DatabaseModule.SetDatabaseVersion | electron/database.js:91-96 | Records the version. |
| LocalDatabase.DatabaseModule.CreateInitialSchema | electron/database.js:98-141 | Creates the folders and screenshots tables; the metadata table is created beforehand by `initializeDatabaseSchema`. |
| LocalDatabase.DatabaseModule.SetDatabaseMetadata | electron/database.js:143-164 | Overwrites the three install keys. |
| LocalDatabase.DatabaseModule.RunMigrations | electron/database.js:166-219 | The loop computes exactly `Migrate` over the migration list. |
| LocalDatabase.DatabaseModule.AddSettings | electron/database.js:169-181 | Adds the settings table. |
| LocalDatabase.DatabaseModule.AddNoteHistoryColumn | electron/database.js:182-209 | Adds the column and backfills it. |
| LocalDatabase.DatabaseModule.GetDatabase | electron/database.js:234-237 | Returns the handle, or `Database not initialized` when there is none. |
| LocalDatabase.DatabaseModule.CloseDatabase | electron/database.js:259-264 | Closes the handle, and is safe to call twice. |
| MainProcess.TimestampNameLayout | electron/main.js:55-59 | The name is `screenshot_YYYY-MM-DD_HH-MM-SS.png`, with a 1-based month and each field zero-padded; reading the digits back gives the time. |
| MainProcess.NameLayout | electron/main.js:55-59 | The 34-character layout with fixed separators. |
| MainProcess.InsertStatement | electron/main.js:513-526 | Insert fails iff there is no data object. |
| MainProcess.UpdateStatement | electron/main.js:528-540 | Update fails iff the data or the where object is missing. |
| MainProcess.DeleteStatement | electron/main.js:542-547 | Delete fails iff there is no where object. |
| MainProcess.SelectPlaceholders | electron/main.js:491-498 | The select SQL has one `?` per where value. |
| MainProcess.InsertPlaceholders | electron/main.js:513-526 | The insert SQL has one `?` per data key, and the parameters are the encoded values in key order. |
| MainProcess.UpdatePlaceholders | electron/main.js:528-540 | The update SQL has one `?` per data key and where key. The parameters are the encoded data values followed by the where values. |
| MainProcess.DeletePlaceholders | electron/main.js:542-547 | The delete SQL has one `?` per where value. |
| MainProcess.SpreadCopies | electron/main.js:518 | Spreading the data into a new object copies it. |
| MainProcess.EncodeColumns | electron/main.js:518-522 | The copy is encoded column by column. |
| MainProcess.EncodeTagColumns | electron/main.js:519-520 | Truthy tag arrays are JSON-encoded. |
| MainProcess.EncodeFlagColumns | electron/main.js:521-522 | Boolean flags become 1 or 0. |
| MainProcess.EncodeArchived | electron/main.js:533-536 | Update leaves `is_archived` unconverted. |
| MainProcess.EncodeInOrder | electron/main.js:518-522 | Encoding field by field equals encoding the four columns in turn. |
| MainProcess.TagsRoundTrip | electron/main.js:500-522 | Decoding an encoded tag array returns it. |
| MainProcess.FlagRoundTrip | electron/main.js:500-522 | Decoding an encoded boolean returns it. |
| MainProcess.NormalizeRow | electron/main.js:500-508 | Normalising a row fails iff a tag column does not parse. |
| MainProcess.NormalizeRowSpec | electron/main.js:500-508 | Tag columns are decoded, the three flags coerced to booleans, and every other field passed through. |
| MainProcess.NormalizeRowKeys | electron/main.js:500-508 | The row's own keys keep their order at the front. |
| MainProcess.NormalizeRows | electron/main.js:500-508 | All rows are normalised, or the select fails. |
| MainProcess.HandleDbQuery | electron/main.js:487-554 | Per operation: the statement run and the reply. A closed database, a missing object and an unknown operation are each reported as errors. |
| MainProcess.Session.SignUp | electron/main.js:416-427 | Inserts the user with the hashed password and reads it back. Only a successful read sets the session. |
| MainProcess.Session.SignIn | electron/main.js:428-439 | No match gives `Invalid email or password` and leaves the session unchanged; a match sets it. |
| MainProcess.Session.SignOut | electron/main.js:440 | Clears the session. |
| MainProcess.Session.GetSession | electron/main.js:441 | Returns the current user. |

## Left out

- Image work in `resize_icon.py`. Opening, `getbbox`, crop, LANCZOS
  resampling, the alpha paste and saving are PIL's. The image is an abstract
  value with a bounding box, and the printed messages are not modelled.
- IconResize.Place: the script truncates floating-point results: the new
  height of wide content is `int(832 / (w / h))`, and the new width of other
  content is `int(832 * (w / h))`. The model uses the exact rational floors
  of `832 * h / w` and `832 * w / h`. Rounding can put a float result just
  below a whole-number exact quotient, so the script can get one less: for
  content 15 wide and 26 high the script gives width 479 and the model
  gives 480. Float rounding is not modelled.
- DbClient.WithIdSpec: object keys keep insertion order in the model.
  JavaScript lists integer-like keys (array and string indices, or keys such
  as `"0"`) before `id`, so the first-key clause matches JavaScript only for
  items without such keys.
- Async execution, React re-rendering, `console` logging and every
  `window.electronAPI` transport. Each awaited result is a parameter.
- Tesseract OCR (`extractTextFromImage`) is not part of this model.
- Case mapping and `\w`/`\s` are ASCII only. Lengths count characters, not
  UTF-16 code units.
- The wall clock, `crypto.randomUUID`, SHA-256 hashing and `confirm()` are
  parameters.
- `toLocaleDateString`/`toLocaleString` output is a parameter.
- `new Date(...)` parsing is a parameter, and the seven-day cut-off of the
  recent view is an input.
- SQLite is an abstract store:
  - tables, metadata and screenshot rows only;
  - no index creation, no folders rows, and no other columns;
  - no SQL execution beyond the statement text and parameters.
- MainProcess.HandleDbQuery: the select ignores `orderBy`, `limit` and
  `offset`, as the handler does. The SQL text of the auth handlers is
  abstracted to `AuthStatement`. The `users` table those handlers read is
  absent from the schema in `electron/database.js`.
- LocalDatabase.NumberOf: `Number()` is modelled for decimal digit strings
  (blank gives 0, anything else is NaN). Signs, exponents, hex and
  fractions are not modelled.
- LocalDatabase.DatabaseModule.InitDatabase: it assumes the opened file is
  well formed (distinct row ids). Directory creation, `getDatabaseInfo` and
  `getLocalDatabasePath` are file-system code.
- JSON encoding is an abstract `Stringify`/`Parse` pair that round-trips.
  The concrete text is not modelled.
- Gallery:
  - tags are strings, so `String(t)` of non-string tags and `null` tag
    entries are not modelled;
  - the file deletion (`file:delete`) in `deleteScreenshot` is a transport
    call and is not modelled;
  - the sort is modelled as a stable descending sort, which is what
    `Array.prototype.sort` guarantees;
  - `getImageUrl`, drag and drop, and rendering are UI.
- ScreenshotModal:
  - `loadImage`, the Escape-key effect, the effects that sync props into
    state and `deleteScreenshot` (a delete followed by closing) are UI
    glue;
  - `custom_tags` is taken as a list, never null;
  - the display formatting after normalisation is `toLocaleString`.
- Editor:
  - rendering, `drawArrow` and `getPos` scaling are left out;
  - `distanceToSegment` (floating point) is the `near` parameter of the hit
    test;
  - text entry (`handleCanvasClick`, `applyText`), copy, save, share,
    done, escape and the keyboard shortcuts are UI glue;
  - coordinates are integers.
- Screen capture, windows, tray, shortcuts, notifications and permissions
  in `electron/main.js` are Electron and OS plumbing.
