# Servoy client core, modelled in Dafny

This project models the core of the Servoy client runtime and proves properties of that model. It covers these parts:

- **Custom JSON array property (browser side).** `array.js` keeps a browser array in step with the server. It receives full values, granular CHANGED/INSERT/DELETE batches and version-only messages. It also sends back either the whole array or only the indexes that really changed. See `ArraySyncSpec` (pure semantics) and `ArraySync` (the array and its internal state as a class).
- **Foundset viewport and change monitors (server side).** `FoundsetTypeViewport` keeps the client's viewport bounds valid. `FoundsetTypeChangeMonitor` turns foundset events into change flags and queued viewport operations. `ValueListTypeChangeMonitor` records whether a value list changed. See `FoundsetSpec`, `FoundsetSync` and `ValueListMonitor`.
- **TableSorter.** This is a stable merge sort over an index array ("shuttlesort"). It compares rows column by column, on the columns the user sorted on. See `TableSortSpec` and `TableSort`.
- **PersistHelper.** This converts dimensions, points, insets, rectangles, locales, colours and fonts to and from their string forms. See `PersistHelper`.
- **ImageLoader.** This finds the content type of a byte array from its leading bytes or its file name, and parses CSS image size, position and repeat values. See `ImageLoader`.
- **RelationItem.** These are relation operators and their modifiers: swapping, parsing and printing them. See `RelationItem`.
- **QueryJoin.** These are SQL joins: inverting, equality, hashing and the serialised form. See `QueryJoin`.
- **ColumnInfo.** This is column metadata: flags, auto-enter types, sequence names and change tracking. See `ColumnInfo`.
- **IdentDocumentValidator.** This is the document filter that lets only identifier text into a field. See `IdentValidator`.
- **EditedRecords.** These are the records edited or deleted in a transaction, in registration order. See `EditedRecords`.
- **Form.** This covers a form's parts: their order, sizes and positions, plus the encapsulation flags and the paper print scale. See `Form`.
- **PageJSActionBuffer.** This is the buffer of scripts and dialog actions that a web page sends with its next AJAX response or page header. See `PageJSActionBuffer`.
- **PerformanceTimingAggregate.** This holds the min/max/total statistics of action timings, including those of sub-actions. See `PerformanceTiming`.
- **ServoyException.** This covers error codes along a chain of wrapped exceptions. See `ServoyException`.

Two small support modules are shared. `Wrappers` holds Option and Result. `JavaLang` holds the Java behaviour the core relies on: 32-bit int wrap-around, `Integer.toString`/`parseInt`, trimming, `StringTokenizer`, hex digits, strings as UTF-16 code units where their order matters, and the case mappings the core uses.

Code that changes state step by step is modelled as classes and methods with loops. Those methods are proved against the specification functions beside them. Pure code is modelled as functions and lemmas.

## Model

| member | source | states |
|---|---|---|
| ArraySyncSpec.PutAt | servoy_ngclient/war/servoyservices/custom_json_array_property/array.js:173-178 | after `s[i] = v`, index i reads v and every other index reads what it read before (past the old end: the absent value) |
| ArraySyncSpec.SpliceInsertAt | servoy_ngclient/war/servoyservices/custom_json_array_property/array.js:194-197 | after an insert at i, indexes below i are unchanged, i holds v, the rest move up by one |
| ArraySyncSpec.SpliceDeleteAt | servoy_ngclient/war/servoyservices/custom_json_array_property/array.js:211-213 | after a delete of n at i, index j >= i holds what j + n held |
| ArraySyncSpec.Bound | servoy_ngclient/war/servoyservices/custom_json_array_property/array.js:145-148 | binding a change notifier changes only a smart element, which then reports index i |
| ArraySyncSpec.FullInfoAt | servoy_ngclient/war/servoyservices/custom_json_array_property/array.js:138-143 | after a full value, conversion info j is exactly the server's type entry for j (none past the end) |
| ArraySyncSpec.ChangedAt | servoy_ngclient/war/servoyservices/custom_json_array_property/array.js:167-183 | CHANGED [s, e] sets every s <= j <= e to the op's value for it and records its info; every other index keeps element and info |
| ArraySyncSpec.ChangedUpToElementAt | servoy_ngclient/war/servoyservices/custom_json_array_property/array.js:170-183 | after k iterations of the CHANGED loop, indexes s..s+k-1 hold the op's values, others are unchanged |
| ArraySyncSpec.ChangedUpToInfoAt | servoy_ngclient/war/servoyservices/custom_json_array_property/array.js:173 | after k iterations the conversion info of s..s+k-1 is the op's, others unchanged |
| ArraySyncSpec.ChangedUpToLength | servoy_ngclient/war/servoyservices/custom_json_array_property/array.js:170-178 | after k iterations of the CHANGED loop the length is max(old length, s + k) |
| ArraySyncSpec.InsertElements | servoy_ngclient/war/servoyservices/custom_json_array_property/array.js:185-198 | INSERT of n items at s <= length gives prior[..s] + data + prior[s..]: the reverse-order splicing keeps the data in order |
| ArraySyncSpec.InsertUpToElements | servoy_ngclient/war/servoyservices/custom_json_array_property/array.js:192-198 | after k iterations of the reverse loop, the last k data items sit at s in order |
| ArraySyncSpec.InsertInfo | servoy_ngclient/war/servoyservices/custom_json_array_property/array.js:192-196 | INSERT shifts the conversion info the same way, whatever the sparse info array's length: entries before s stay, the op's info follows, the prior entries from s move up by n |
| ArraySyncSpec.InsertUpToInfo | servoy_ngclient/war/servoyservices/custom_json_array_property/array.js:192-196 | the conversion info after k insert iterations, read at any index |
| ArraySyncSpec.InsertInfoStep | servoy_ngclient/war/servoyservices/custom_json_array_property/array.js:193-196 | one insert iteration shifts the expected conversion info by one place |
| ArraySyncSpec.RebindBindsSmartElements | servoy_ngclient/war/servoyservices/custom_json_array_property/array.js:200-205 | after re-binding, every smart element from the start index reports its own index; nothing else about any element changes |
| ArraySyncSpec.DeleteRemoves | servoy_ngclient/war/servoyservices/custom_json_array_property/array.js:207-213 | DELETE [s, e] inside the array removes exactly the e - s + 1 elements from s |
| ArraySyncSpec.DeleteShiftsElements | servoy_ngclient/war/servoyservices/custom_json_array_property/array.js:207-213 | after a DELETE of n entries from s, index j >= s holds what j + n held |
| ArraySyncSpec.DeleteShiftsInfo | servoy_ngclient/war/servoyservices/custom_json_array_property/array.js:209-212 | the conversion info moves down by the same count, however short the sparse info array is |
| ArraySyncSpec.DeleteEmptyRange | servoy_ngclient/war/servoyservices/custom_json_array_property/array.js:207-213 | a DELETE whose range is empty or reversed removes nothing |
| ArraySyncSpec.UnknownOpIsIgnored | servoy_ngclient/war/servoyservices/custom_json_array_property/array.js:161-222 | an op that is neither CHANGED, INSERT nor DELETE changes nothing |
| ArraySyncSpec.SparseUpdatesSound | servoy_ngclient/war/servoyservices/custom_json_array_property/array.js:285-316 | every update names a marked index that really changed, with its wire value |
| ArraySyncSpec.SparseUpdatesOrdered | servoy_ngclient/war/servoyservices/custom_json_array_property/array.js:285-316 | the updates are in ascending index order |
| ArraySyncSpec.SparseUpdatesComplete | servoy_ngclient/war/servoyservices/custom_json_array_property/array.js:285-316 | every marked index that really changed has an update |
| ArraySyncSpec.SparseUpdatesReport | servoy_ngclient/war/servoyservices/custom_json_array_property/array.js:283-316 | the sparse path reports exactly the marked indexes that really changed, each once, in ascending order |
| ArraySyncSpec.AllChangedPath | servoy_ngclient/war/servoyservices/custom_json_array_property/array.js:264-281 | with allChanged set, the client sends every element under its current version, raises the version by exactly one and clears all dirty state |
| ArraySyncSpec.SparsePath | servoy_ngclient/war/servoyservices/custom_json_array_property/array.js:282-320 | with only some indexes marked, the client sends the really changed ones under the unchanged version and clears all dirty state |
| ArraySyncSpec.SparsePathMessage | servoy_ngclient/war/servoyservices/custom_json_array_property/array.js:282-320 | the sparse message carries the version the state had |
| ArraySyncSpec.UnchangedPath | servoy_ngclient/war/servoyservices/custom_json_array_property/array.js:322-330 | without marks, {n: true} and the state kept when angular.equals holds; otherwise the array itself and the state dropped |
| ArraySyncSpec.WatchedPrimitiveRule | servoy_ngclient/war/servoyservices/custom_json_array_property/array.js:289-302 | a dumb-watched primitive is sent exactly when it differs from the value its watch recorded |
| ArraySyncSpec.WatchedObjectRule | servoy_ngclient/war/servoyservices/custom_json_array_property/array.js:293-298 | a dumb-watched object that differs from the recorded value is sent exactly when $sabloUtils.isChanged says so |
| ArraySyncSpec.SmartElementRule | servoy_ngclient/war/servoyservices/custom_json_array_property/array.js:304-305 | an unwatched element with the same reference is sent exactly when it is smart and reports a change |
| ArraySyncSpec.ReplacedElementRule | servoy_ngclient/war/servoyservices/custom_json_array_property/array.js:288 | an element whose reference differs from the old array's is always sent |
| ArraySyncSpec.FreshFullValueSendsNoOp | servoy_ngclient/war/servoyservices/custom_json_array_property/array.js:322-326 | right after a full value, an untouched array sends {n: true} back when it equals itself |
| ArraySync.MarkAll | servoy_ngclient/war/servoyservices/custom_json_array_property/array.js:108-113 | every replaced index is marked as a changed reference; other marks are kept |
| ArraySync.ArrayValue.constructor | servoy_ngclient/war/servoyservices/custom_json_array_property/array.js:122-123 | a plain array has no internal state, no watches and no notifications |
| ArraySync.ArrayValue.InitializeNewValue | servoy_ngclient/war/servoyservices/custom_json_array_property/array.js:37-66 | the version is always taken; a fresh state (no marks, no conversion info, allChanged false) is made only when there is none |
| ArraySync.ArrayValue.RemoveAllWatches | servoy_ngclient/war/servoyservices/custom_json_array_property/array.js:67-80 | an array with internal state loses every watch; one without keeps what it had |
| ArraySync.ArrayValue.AddBackWatches | servoy_ngclient/war/servoyservices/custom_json_array_property/array.js:81-120 | with a scope and a push policy, every non-smart element and the structure are watched; otherwise nothing is |
| ArraySync.ArrayValue.DumbWatchFired | servoy_ngclient/war/servoyservices/custom_json_array_property/array.js:28-34 | a dumb watch records the old value and notifies unless old and new are the same |
| ArraySync.ArrayValue.StructureWatchFired | servoy_ngclient/war/servoyservices/custom_json_array_property/array.js:97-117 | the first run does nothing; a length change sets allChanged and notifies; otherwise replaced smart elements are marked and one notification follows if any |
| ArraySync.ArrayValue.MarkReplacedReferences | servoy_ngclient/war/servoyservices/custom_json_array_property/array.js:107-113 | the loop marks exactly the replaced smart elements and tells whether there were any |
| ArraySync.ArrayValue.ChildNotified | servoy_ngclient/war/servoyservices/custom_json_array_property/array.js:17-23 | a smart child's notifier marks its index and notifies once |
| ArraySync.ArrayValue.LoadFull | servoy_ngclient/war/servoyservices/custom_json_array_property/array.js:134-149 | the element loop of a full value yields FullElements and FullInfo |
| ArraySync.ArrayValue.RebindFrom | servoy_ngclient/war/servoyservices/custom_json_array_property/array.js:200-205 | the re-binding loop yields Rebind |
| ArraySync.ArrayValue.ChangeAt | servoy_ngclient/war/servoyservices/custom_json_array_property/array.js:170-182 | one CHANGED iteration is ChangedStep |
| ArraySync.ArrayValue.ApplyChangedOp | servoy_ngclient/war/servoyservices/custom_json_array_property/array.js:167-184 | the CHANGED loop yields ApplyChanged |
| ArraySync.ArrayValue.ApplyInsertOp | servoy_ngclient/war/servoyservices/custom_json_array_property/array.js:185-206 | the INSERT loops yield ApplyInsert |
| ArraySync.ArrayValue.ApplyDeleteOp | servoy_ngclient/war/servoyservices/custom_json_array_property/array.js:207-221 | the DELETE splices and re-binding yield ApplyDelete |
| ArraySync.ArrayValue.ApplyGranular | servoy_ngclient/war/servoyservices/custom_json_array_property/array.js:161-222 | the op loop applies the ops in list order (ApplyOps) |
| ArraySync.ArrayValue.CollectAll | servoy_ngclient/war/servoyservices/custom_json_array_property/array.js:270-277 | the all-changed element loop yields FullValues |
| ArraySync.ArrayValue.ChangedAt | servoy_ngclient/war/servoyservices/custom_json_array_property/array.js:286-306 | the per-index test of the sparse path is IndexChanged |
| ArraySync.ArrayValue.UpdateAt | servoy_ngclient/war/servoyservices/custom_json_array_property/array.js:307-315 | one marked index yields its update exactly when it really changed |
| ArraySync.ArrayValue.CollectUpdates | servoy_ngclient/war/servoyservices/custom_json_array_property/array.js:284-316 | the for-in loop over the marks yields the sparse report |
| ArraySync.ArrayValue.SendAllChanged | servoy_ngclient/war/servoyservices/custom_json_array_property/array.js:266-281 | the all-changed branch yields the message and state of Outgoing |
| ArraySync.ArrayValue.SendSparse | servoy_ngclient/war/servoyservices/custom_json_array_property/array.js:282-320 | the sparse branch yields the message and state of Outgoing |
| ArraySync.FromServerToClient | servoy_ngclient/war/servoyservices/custom_json_array_property/array.js:122-243 | full value: a fresh array with a fresh state and watches; "g": the ops applied only when the versions match; "in": re-initialised; "n": kept; anything else: null |
| ArraySync.FromClientToServer | servoy_ngclient/war/servoyservices/custom_json_array_property/array.js:259-331 | the message and state left behind are those of Outgoing; a null array is sent as null |
| FoundsetSpec.Correct | servoy_ngclient/src/com/servoy/j2db/server/ngclient/property/FoundsetTypeViewport.java:102-114 | corrected bounds always fit the foundset: inside it, starting on a row (or 0 when empty); no foundset gives (0, 0) |
| FoundsetSpec.CorrectFixesExactlyInvalid | servoy_ngclient/src/com/servoy/j2db/server/ngclient/property/FoundsetTypeViewport.java:102-114 | correction leaves bounds unchanged exactly when they already fit the foundset |
| FoundsetSpec.CorrectIdempotent | servoy_ngclient/src/com/servoy/j2db/server/ngclient/property/FoundsetTypeViewport.java:102-114 | correcting corrected bounds changes nothing |
| FoundsetSpec.CellChanges | servoy_ngclient/src/com/servoy/j2db/server/ngclient/property/FoundsetTypeChangeMonitor.java:431-434 | one cell change per dataprovider, in the list's order |
| FoundsetSpec.SetFoundsetStartsEmpty | servoy_ngclient/src/com/servoy/j2db/server/ngclient/property/FoundsetTypeViewport.java:71-83 | setFoundset starts at (0, 0) whatever the new foundset; the notifier hears of it exactly when the bounds moved and nothing coarser was pending; moved bounds make the whole viewport resend |
| FoundsetSpec.AllChangedSetsOnlySendAll | servoy_ngclient/src/com/servoy/j2db/server/ngclient/property/FoundsetTypeChangeMonitor.java:196-210 | allChanged leaves SEND_ALL as the only flag, resends the whole viewport, and notifies exactly when the flags were different |
| FoundsetSpec.SendAllAbsorbsFlags | servoy_ngclient/src/com/servoy/j2db/server/ngclient/property/FoundsetTypeChangeMonitor.java:112-164 | once SEND_ALL is set, the finer flag changes, the size flag and the bounds flag do nothing |
| FoundsetSpec.FlagRaisedNotifiesIffNew | servoy_ngclient/src/com/servoy/j2db/server/ngclient/property/FoundsetTypeChangeMonitor.java:112-135 | a flag change adds the flag and notifies exactly when it was not already set and a notifier is present |
| FoundsetSpec.FlagRaisedTwice | servoy_ngclient/src/com/servoy/j2db/server/ngclient/property/FoundsetTypeChangeMonitor.java:127-135 | raising the same flag twice is the same as raising it once (at most one notification) |
| FoundsetSpec.RequestIdHandledNotifiesFirst | servoy_ngclient/src/com/servoy/j2db/server/ngclient/property/FoundsetTypeChangeMonitor.java:103-107 | the handled request is appended; only the first pending one notifies |
| FoundsetSpec.DeleteSlideNonPositive | servoy_ngclient/src/com/servoy/j2db/server/ngclient/property/FoundsetTypeChangeMonitor.java:286-296 | a delete never moves the viewport forward; rows deleted before its start move it back by their number |
| FoundsetSpec.DeleteBeforeViewportKeepsRows | servoy_ngclient/src/com/servoy/j2db/server/ngclient/property/FoundsetTypeChangeMonitor.java:270-349 | rows deleted wholly before the viewport move it back by their count and queue no operation |
| FoundsetSpec.InsertBeforeViewportSlides | servoy_ngclient/src/com/servoy/j2db/server/ngclient/property/FoundsetTypeChangeMonitor.java:375-407 | rows inserted before the viewport push its start forward by their count and queue no operation |
| FoundsetSpec.InsertInsideViewportQueues | servoy_ngclient/src/com/servoy/j2db/server/ngclient/property/FoundsetTypeChangeMonitor.java:380-402 | an insert starting inside the viewport queues an INSERT of the rows that land in it, relative to the viewport, and keeps the bounds |
| FoundsetSpec.DeleteInsideViewportQueues | servoy_ngclient/src/com/servoy/j2db/server/ngclient/property/FoundsetTypeChangeMonitor.java:298-336 | a delete that overlaps the viewport queues first a DELETE of its rows inside the old viewport, relative to it |
| FoundsetSpec.RecordsUpdatedQueuesInside | servoy_ngclient/src/com/servoy/j2db/server/ngclient/property/FoundsetTypeChangeMonitor.java:410-472 | recordsUpdated only appends to the queue; every appended change lies inside the viewport and carries its size; something is appended exactly when no quiet change runs, the monitor is granular, the rows meet the viewport and it is not a whole-foundset update without dataproviders |
| FoundsetSpec.SetChangeNotifierCases | servoy_ngclient/src/com/servoy/j2db/server/ngclient/property/FoundsetTypeChangeMonitor.java:553-557 | only the notifier and the notification count change; a notifier is called once exactly when changes are pending; a null notifier throws exactly when changes are pending |
| FoundsetSpec.ClearChangesClears | servoy_ngclient/src/com/servoy/j2db/server/ngclient/property/FoundsetTypeChangeMonitor.java:565-571 | after clearChanges no flag, handled request or queued change is pending and hasChanges is false |
| FoundsetSpec.HasChangesIgnoresSomeFlags | servoy_ngclient/src/com/servoy/j2db/server/ngclient/property/FoundsetTypeChangeMonitor.java:559-563 | hasChanges ignores SEND_MULTISELECT, SEND_HAD_MORE_ROWS, SEND_USER_SET_SELECTION and SEND_FOUNDSET_ID |
| FoundsetSpec.MultiSelectNotifiesWithoutChanges | servoy_ngclient/src/com/servoy/j2db/server/ngclient/property/FoundsetTypeChangeMonitor.java:559-563 | a multi-select change on a clean monitor notifies, yet hasChanges stays false |
| FoundsetSync.ChangeMonitor.constructor | servoy_ngclient/src/com/servoy/j2db/server/ngclient/property/FoundsetTypeChangeMonitor.java:80-92 | a new monitor has no flags, nothing queued, no notifier and no notifications |
| FoundsetSync.ChangeMonitor.NotifyChange | servoy_ngclient/src/com/servoy/j2db/server/ngclient/property/FoundsetTypeChangeMonitor.java:573-576 | the notifier is called once when present |
| FoundsetSync.ChangeMonitor.RequestIdHandled | servoy_ngclient/src/com/servoy/j2db/server/ngclient/property/FoundsetTypeChangeMonitor.java:103-107 | the new state is RequestIdHandled of the old one |
| FoundsetSync.ChangeMonitor.RaiseFlags | servoy_ngclient/src/com/servoy/j2db/server/ngclient/property/FoundsetTypeChangeMonitor.java:127-135 | the shared shape of the flag methods: FlagRaised of the old state |
| FoundsetSync.ChangeMonitor.SelectionChanged | servoy_ngclient/src/com/servoy/j2db/server/ngclient/property/FoundsetTypeChangeMonitor.java:112-125 | raises SEND_SELECTED_INDEXES, and SEND_USER_SET_SELECTION when the user set it, unless SEND_ALL |
| FoundsetSync.ChangeMonitor.MultiSelectChanged | servoy_ngclient/src/com/servoy/j2db/server/ngclient/property/FoundsetTypeChangeMonitor.java:127-135 | raises SEND_MULTISELECT unless SEND_ALL, notifying when new |
| FoundsetSync.ChangeMonitor.FoundsetSortChanged | servoy_ngclient/src/com/servoy/j2db/server/ngclient/property/FoundsetTypeChangeMonitor.java:150-158 | raises SEND_FOUNDSET_SORT unless SEND_ALL, notifying when new |
| FoundsetSync.ChangeMonitor.ColumnFormatsUpdated | servoy_ngclient/src/com/servoy/j2db/server/ngclient/property/FoundsetTypeChangeMonitor.java:592-600 | raises SEND_COLUMN_FORMATS unless SEND_ALL, notifying when new |
| FoundsetSync.ChangeMonitor.FoundsetIdChanged | servoy_ngclient/src/com/servoy/j2db/server/ngclient/property/FoundsetTypeChangeMonitor.java:624-631 | raises SEND_FOUNDSET_ID unless SEND_ALL, notifying when new |
| FoundsetSync.ChangeMonitor.CheckHadMoreRows | servoy_ngclient/src/com/servoy/j2db/server/ngclient/property/FoundsetTypeChangeMonitor.java:602-622 | with a foundset, records its hadMoreRows and raises SEND_HAD_MORE_ROWS when it changed, notifying only when asked |
| FoundsetSync.ChangeMonitor.FoundSetSizeChanged | servoy_ngclient/src/com/servoy/j2db/server/ngclient/property/FoundsetTypeChangeMonitor.java:141-148 | raises SEND_FOUNDSET_SIZE unless SEND_ALL and checks hadMoreRows, without notifying |
| FoundsetSync.ChangeMonitor.NewFoundsetSize | servoy_ngclient/src/com/servoy/j2db/server/ngclient/property/FoundsetTypeChangeMonitor.java:215-220 | the size change, then one notification if the flags changed |
| FoundsetSync.ChangeMonitor.ViewPortBoundsOnlyChanged | servoy_ngclient/src/com/servoy/j2db/server/ngclient/property/FoundsetTypeChangeMonitor.java:166-172 | raises SEND_VIEWPORT_BOUNDS only when neither everything nor the whole viewport is resent |
| FoundsetSync.ChangeMonitor.ViewPortCompletelyChanged | servoy_ngclient/src/com/servoy/j2db/server/ngclient/property/FoundsetTypeChangeMonitor.java:177-191 | the whole viewport is resent; the first time, the bounds flag is dropped and the change announced |
| FoundsetSync.ChangeMonitor.AllChanged | servoy_ngclient/src/com/servoy/j2db/server/ngclient/property/FoundsetTypeChangeMonitor.java:196-210 | the new state is AllChanged of the old one (see AllChangedSetsOnlySendAll) |
| FoundsetSync.ChangeMonitor.FindModeChanged | servoy_ngclient/src/com/servoy/j2db/server/ngclient/property/FoundsetTypeChangeMonitor.java:225-229 | a find-mode change is allChanged |
| FoundsetSync.ChangeMonitor.QueueOperation | servoy_ngclient/src/com/servoy/j2db/server/ngclient/property/FoundsetTypeChangeMonitor.java:238-242 | appends one viewport operation to the queue |
| FoundsetSync.ChangeMonitor.ShrinkClientViewport | servoy_ngclient/src/com/servoy/j2db/server/ngclient/property/FoundsetTypeChangeMonitor.java:231-245 | queues a DELETE of the relative rows only when granular and the range is not empty |
| FoundsetSync.ChangeMonitor.ExtendClientViewport | servoy_ngclient/src/com/servoy/j2db/server/ngclient/property/FoundsetTypeChangeMonitor.java:351-367 | queues an INSERT of the rows relative to the viewport only when granular |
| FoundsetSync.ChangeMonitor.RecordsDeleted | servoy_ngclient/src/com/servoy/j2db/server/ngclient/property/FoundsetTypeChangeMonitor.java:270-349 | a pk-chunk reload resets to the preferred bounds; otherwise the size flag, the slide and the queued DELETE/INSERT of RecordsDeleted, with one notification if the flags changed |
| FoundsetSync.ChangeMonitor.DeletedRows | servoy_ngclient/src/com/servoy/j2db/server/ngclient/property/FoundsetTypeChangeMonitor.java:282-345 | the body after the size flag: slide and queue when granular, else shrink a too-large viewport |
| FoundsetSync.ChangeMonitor.DeletedInViewport | servoy_ngclient/src/com/servoy/j2db/server/ngclient/property/FoundsetTypeChangeMonitor.java:304-336 | a delete reaching into the viewport slides it, then queues the DELETE and the INSERT of the rows that slid in |
| FoundsetSync.ChangeMonitor.RecordsInserted | servoy_ngclient/src/com/servoy/j2db/server/ngclient/property/FoundsetTypeChangeMonitor.java:375-408 | the size flag, then an INSERT (and a DELETE of rows pushed out) for an insert inside the viewport, or a slide for one before it |
| FoundsetSync.ChangeMonitor.InsertedRows | servoy_ngclient/src/com/servoy/j2db/server/ngclient/property/FoundsetTypeChangeMonitor.java:379-405 | the body of recordsInserted after the size flag |
| FoundsetSync.ChangeMonitor.QueueCellChanges | servoy_ngclient/src/com/servoy/j2db/server/ngclient/property/FoundsetTypeChangeMonitor.java:429-435 | appends one cell change per dataprovider, in order |
| FoundsetSync.ChangeMonitor.RecordsUpdated | servoy_ngclient/src/com/servoy/j2db/server/ngclient/property/FoundsetTypeChangeMonitor.java:410-472 | nothing during a quiet change; a whole-foundset update queues cell changes per dataprovider or resends the viewport; otherwise a cell change or a CHANGE of the rows inside the viewport |
| FoundsetSync.ChangeMonitor.HasChanges | servoy_ngclient/src/com/servoy/j2db/server/ngclient/property/FoundsetTypeChangeMonitor.java:559-563 | answers HasChanges of the state |
| FoundsetSync.ChangeMonitor.ClearChanges | servoy_ngclient/src/com/servoy/j2db/server/ngclient/property/FoundsetTypeChangeMonitor.java:565-571 | clears flags, queue and handled requests (see ClearChangesClears) |
| FoundsetSync.ChangeMonitor.SetChangeNotifier | servoy_ngclient/src/com/servoy/j2db/server/ngclient/property/FoundsetTypeChangeMonitor.java:553-557 | the new state and the NullPointerException flag are those of FoundsetSpec.SetChangeNotifier |
| FoundsetSync.Viewport.constructor | servoy_ngclient/src/com/servoy/j2db/server/ngclient/property/FoundsetTypeViewport.java:42-45 | a new viewport is (0, 0) with no foundset |
| FoundsetSync.Viewport.CorrectBoundsInternal | servoy_ngclient/src/com/servoy/j2db/server/ngclient/property/FoundsetTypeViewport.java:102-114 | the bounds become Correct of the old ones, with no notification |
| FoundsetSync.Viewport.CorrectAndSetBoundsInternal | servoy_ngclient/src/com/servoy/j2db/server/ngclient/property/FoundsetTypeChangeMonitor.java:342-346 | sets and corrects the bounds without notifying |
| FoundsetSync.Viewport.SetBounds | servoy_ngclient/src/com/servoy/j2db/server/ngclient/property/FoundsetTypeViewport.java:71-83 | corrected new bounds; viewPortCompletelyChanged exactly when they moved |
| FoundsetSync.Viewport.SlideAndCorrect | servoy_ngclient/src/com/servoy/j2db/server/ngclient/property/FoundsetTypeViewport.java:160-169 | shifts the start by delta and corrects; viewPortBoundsOnlyChanged exactly when the bounds moved |
| FoundsetSync.Viewport.SetFoundset | servoy_ngclient/src/com/servoy/j2db/server/ngclient/property/FoundsetTypeViewport.java:47-56 | takes the new foundset and sets the bounds to (0, 0) |
| ValueListMonitor.ReplayAppend | servoy_ngclient/src/com/servoy/j2db/server/ngclient/property/types/ValueListTypeChangeMonitor.java:27-66 | replaying one more call is one more step |
| ValueListMonitor.ChangedIsLastMarkOrClear | servoy_ngclient/src/com/servoy/j2db/server/ngclient/property/types/ValueListTypeChangeMonitor.java:33-50 | isChanged answers what the last markFullyChanged or clearChanges set |
| ValueListMonitor.NotificationRules | servoy_ngclient/src/com/servoy/j2db/server/ngclient/property/types/ValueListTypeChangeMonitor.java:33-56 | markFullyChanged notifies exactly on the false-to-true transition when asked and a notifier is set; notifyOfChange exactly when changed; clearChanges clears |
| ValueListMonitor.MarkTwiceNotifiesOnce | servoy_ngclient/src/com/servoy/j2db/server/ngclient/property/types/ValueListTypeChangeMonitor.java:33-40 | marking twice in a row notifies at most once |
| ValueListMonitor.ValueListChangeMonitor.constructor | servoy_ngclient/src/com/servoy/j2db/server/ngclient/property/types/ValueListTypeChangeMonitor.java:27-31 | not changed, no notifier |
| ValueListMonitor.ValueListChangeMonitor.MarkFullyChanged | servoy_ngclient/src/com/servoy/j2db/server/ngclient/property/types/ValueListTypeChangeMonitor.java:33-40 | one Step of markFullyChanged |
| ValueListMonitor.ValueListChangeMonitor.ClearChanges | servoy_ngclient/src/com/servoy/j2db/server/ngclient/property/types/ValueListTypeChangeMonitor.java:42-45 | one Step of clearChanges |
| ValueListMonitor.ValueListChangeMonitor.IsChanged | servoy_ngclient/src/com/servoy/j2db/server/ngclient/property/types/ValueListTypeChangeMonitor.java:47-50 | answers the changed flag and changes nothing |
| ValueListMonitor.ValueListChangeMonitor.NotifyOfChange | servoy_ngclient/src/com/servoy/j2db/server/ngclient/property/types/ValueListTypeChangeMonitor.java:52-56 | one Step of notifyOfChange |
| ValueListMonitor.ValueListChangeMonitor.SetChangeNotifier | servoy_ngclient/src/com/servoy/j2db/server/ngclient/property/types/ValueListTypeChangeMonitor.java:61-64 | sets or removes the notifier |
| TableSortSpec.Sign | servoy_shared/src/com/servoy/j2db/util/TableSorter.java:136-140 | the sign of a comparison result: -1, 0 or 1, zero exactly for 0 and negative exactly for negatives |
| TableSortSpec.StringCompareZero | servoy_shared/src/com/servoy/j2db/util/TableSorter.java:132-141 | String.compareTo is 0 exactly for equal strings |
| TableSortSpec.StringCompareAntisymmetric | servoy_shared/src/com/servoy/j2db/util/TableSorter.java:132-141 | swapping the strings negates String.compareTo's sign |
| TableSortSpec.StringCompareTransitive | servoy_shared/src/com/servoy/j2db/util/TableSorter.java:132-141 | String.compareTo's order is transitive |
| TableSortSpec.StringCompareByCodeUnit | servoy_shared/src/com/servoy/j2db/util/TableSorter.java:132-141 | strings compare by UTF-16 code unit, so U+FF61 sorts after U+1F600 |
| TableSortSpec.NullsAndBooleans | servoy_shared/src/com/servoy/j2db/util/TableSorter.java:92-104 | two nulls are equal, null is below every value, false is below true |
| TableSortSpec.DoubleValueExact | servoy_shared/src/com/servoy/j2db/util/TableSorter.java:110-114 | Number.doubleValue leaves integers below 2^53 in magnitude as they are |
| TableSortSpec.DoubleValueRounds | servoy_shared/src/com/servoy/j2db/util/TableSorter.java:110-114 | doubleValue rounds 2^53 + 1 half to even, to 2^53 |
| TableSortSpec.SameCellExact | servoy_shared/src/com/servoy/j2db/util/TableSorter.java:110-119 | numbers below 2^53 in magnitude are the same cell only when they are the same number |
| TableSortSpec.CompareCellsRoundsLongs | servoy_shared/src/com/servoy/j2db/util/TableSorter.java:110-119 | the distinct longs 2^53 and 2^53 + 1 compare equal, as their doubles do |
| TableSortSpec.CompareCellsZero | servoy_shared/src/com/servoy/j2db/util/TableSorter.java:82-166 | two cells of a column compare equal exactly when they are the same value, or numbers whose doubles are equal |
| TableSortSpec.CompareCellsAntisymmetric | servoy_shared/src/com/servoy/j2db/util/TableSorter.java:82-166 | swapping two cells negates the column result |
| TableSortSpec.CompareCellsTransitive | servoy_shared/src/com/servoy/j2db/util/TableSorter.java:82-166 | the column order is transitive |
| TableSortSpec.CompareFromZero | servoy_shared/src/com/servoy/j2db/util/TableSorter.java:171-177 | from a level on, 0 exactly when the rows agree in every later sorting column, numbers agreeing when their doubles do |
| TableSortSpec.CompareFromAntisymmetric | servoy_shared/src/com/servoy/j2db/util/TableSorter.java:171-177 | swapping the rows negates the result from any level |
| TableSortSpec.CompareFromSubstitute | servoy_shared/src/com/servoy/j2db/util/TableSorter.java:171-177 | rows that agree from a level on compare alike with every third row |
| TableSortSpec.CompareFromTransitive | servoy_shared/src/com/servoy/j2db/util/TableSorter.java:171-177 | the result from any level is transitive |
| TableSortSpec.CompareAntisymmetric | servoy_shared/src/com/servoy/j2db/util/TableSorter.java:168-178 | compare(x, y) == -compare(y, x), in either direction of sorting |
| TableSortSpec.CompareTransitive | servoy_shared/src/com/servoy/j2db/util/TableSorter.java:168-178 | compare is transitive |
| TableSortSpec.CompareSubstitute | servoy_shared/src/com/servoy/j2db/util/TableSorter.java:168-178 | rows that compare equal compare the same way with every other row |
| TableSortSpec.CompareZero | servoy_shared/src/com/servoy/j2db/util/TableSorter.java:168-178 | compare is 0 exactly when the rows hold the same cells in every sorting column, numbers counting as the same when their doubles are equal |
| TableSortSpec.CompareStrict | servoy_shared/src/com/servoy/j2db/util/TableSorter.java:168-178 | strictly below, then at most, gives strictly below |
| TableSortSpec.MergePermutes | servoy_shared/src/com/servoy/j2db/util/TableSorter.java:279-289 | the merge is a permutation of its two runs |
| TableSortSpec.MergeSorted | servoy_shared/src/com/servoy/j2db/util/TableSorter.java:279-289 | merging two sorted runs gives a sorted run |
| TableSortSpec.MergeEquivalents | servoy_shared/src/com/servoy/j2db/util/TableSorter.java:281 | a tie takes the left run first, so each row's equivalents keep left-before-right order |
| TableSortSpec.MergeStable | servoy_shared/src/com/servoy/j2db/util/TableSorter.java:279-289 | the merge is a stable rearrangement of its runs laid end to end |
| TableSortSpec.StableTransitive | servoy_shared/src/com/servoy/j2db/util/TableSorter.java:246-290 | stable rearrangements compose |
| TableSortSpec.StableAppend | servoy_shared/src/com/servoy/j2db/util/TableSorter.java:253-254 | stable rearrangements of two halves give one of the whole |
| TableSortSpec.ConcatSorted | servoy_shared/src/com/servoy/j2db/util/TableSorter.java:268-275 | two sorted runs, the last of the first at most the first of the second, are sorted together |
| TableSortSpec.ShortRunSortsStably | servoy_shared/src/com/servoy/j2db/util/TableSorter.java:248-251 | a run of at most one row is already sorted |
| TableSortSpec.MergeSortsStably | servoy_shared/src/com/servoy/j2db/util/TableSorter.java:277-289 | merging two stably sorted runs stably sorts their concatenation |
| TableSortSpec.ConcatSortsStably | servoy_shared/src/com/servoy/j2db/util/TableSorter.java:268-275 | two stably sorted runs already in order stably sort their concatenation |
| TableSortSpec.MergeTakesLeft | servoy_shared/src/com/servoy/j2db/util/TableSorter.java:281-284 | the merge takes the left head when the right run is empty or not smaller |
| TableSortSpec.MergeTakesRight | servoy_shared/src/com/servoy/j2db/util/TableSorter.java:285-288 | the merge takes the right head when the left run is empty or bigger |
| TableSortSpec.ShuttleStepCases | servoy_shared/src/com/servoy/j2db/util/TableSorter.java:268-289 | at least four rows already in order are copied, otherwise merged |
| TableSortSpec.ShuttleStepSortsStably | servoy_shared/src/com/servoy/j2db/util/TableSorter.java:268-289 | one step, copy or merge, of two stably sorted halves stably sorts their concatenation |
| TableSortSpec.ShuttleSortedSortsStably | servoy_shared/src/com/servoy/j2db/util/TableSorter.java:239-290 | shuttlesort is a stable sort: a sorted permutation keeping rows that compare equal in their order |
| TableSortSpec.MergeAllBelow | servoy_shared/src/com/servoy/j2db/util/TableSorter.java:268-275 | when every row of the left run is at most the right run's head, merging appends the right run |
| TableSortSpec.ShortcutIsMerge | servoy_shared/src/com/servoy/j2db/util/TableSorter.java:259-275 | the shortcut copy gives what the merge would: it only saves comparisons |
| TableSortSpec.MergeFromIsMerge | servoy_shared/src/com/servoy/j2db/util/TableSorter.java:279-289 | the index-based merge loop computes the recursive Merge of what is left of both runs |
| TableSortSpec.Swapped | servoy_shared/src/com/servoy/j2db/util/TableSorter.java:292-297 | exchanging two entries: a permutation that changes nothing else |
| TableSortSpec.SwappedTwice | servoy_shared/src/com/servoy/j2db/util/TableSorter.java:292-297 | swapping the same pair twice restores the mapping |
| TableSortSpec.Identity | servoy_shared/src/com/servoy/j2db/util/TableSorter.java:186-190 | the identity mapping over n rows |
| TableSort.TableSorter.constructor | servoy_shared/src/com/servoy/j2db/util/TableSorter.java:60-63 | no model rows, an empty mapping, ascending |
| TableSort.TableSorter.WithModel | servoy_shared/src/com/servoy/j2db/util/TableSorter.java:65-68 | a sorter over a model starts from the identity mapping |
| TableSort.TableSorter.SetModel | servoy_shared/src/com/servoy/j2db/util/TableSorter.java:76-80 | a new model gets a fresh identity mapping |
| TableSort.TableSorter.ReallocateIndexes | servoy_shared/src/com/servoy/j2db/util/TableSorter.java:180-191 | a fresh index array holding the identity mapping, every entry a row |
| TableSort.TableSorter.Compare | servoy_shared/src/com/servoy/j2db/util/TableSorter.java:168-178 | counts the call and answers Compare of the model, sorting columns and direction, with numbers compared by their doubles and texts by UTF-16 code unit |
| TableSort.TableSorter.CopyRun | servoy_shared/src/com/servoy/j2db/util/TableSorter.java:270-273 | the run is copied unchanged and nothing outside it changes |
| TableSort.TableSorter.MergeStep | servoy_shared/src/com/servoy/j2db/util/TableSorter.java:281-288 | one pass of the merge loop writes the next row of MergeFrom |
| TableSort.TableSorter.MergeRuns | servoy_shared/src/com/servoy/j2db/util/TableSorter.java:277-289 | the merge loop writes Merge of the two runs and nothing outside them |
| TableSort.TableSorter.MergeOrCopy | servoy_shared/src/com/servoy/j2db/util/TableSorter.java:268-289 | the shortcut copy or the merge: ShuttleStep of the two halves |
| TableSort.TableSorter.Shuttlesort | servoy_shared/src/com/servoy/j2db/util/TableSorter.java:246-290 | the target run becomes ShuttleSorted of the source run; neither array changes outside it |
| TableSort.TableSorter.Sort | servoy_shared/src/com/servoy/j2db/util/TableSorter.java:214-223 | the mapping is sorted stably: a sorted permutation of the old mapping keeping equal rows in order |
| TableSort.TableSorter.Swap | servoy_shared/src/com/servoy/j2db/util/TableSorter.java:292-297 | exchanges two entries of the mapping |
| PersistHelper.IntStrings | servoy_shared/src/com/servoy/j2db/util/PersistHelper.java:135-137 | the decimal form of each integer, in order |
| PersistHelper.TokensOfIntList | servoy_shared/src/com/servoy/j2db/util/PersistHelper.java:131-139 | the tokens of integers joined by commas are their decimal forms, in order |
| PersistHelper.IntTokensOfIntList | servoy_shared/src/com/servoy/j2db/util/PersistHelper.java:148-150 | reading each token back with Utils.getAsInteger gives the integers written |
| PersistHelper.DimensionRoundTrip | servoy_shared/src/com/servoy/j2db/util/PersistHelper.java:131-158 | createDimension reads back what createDimensionString wrote, null included |
| PersistHelper.PointRoundTrip | servoy_shared/src/com/servoy/j2db/util/PersistHelper.java:160-187 | createPoint reads back what createPointString wrote, null included |
| PersistHelper.InsetsRoundTrip | servoy_shared/src/com/servoy/j2db/util/PersistHelper.java:222-257 | createInsets reads back top, left, bottom and right in the order they were written |
| PersistHelper.RectangleRoundTrip | servoy_shared/src/com/servoy/j2db/util/PersistHelper.java:259-292 | createRectangle reads back x, y, width and height from the point string and the dimension string |
| PersistHelper.DimensionOfNoTokens | servoy_shared/src/com/servoy/j2db/util/PersistHelper.java:141-157 | missing numbers read as 0: a text without tokens gives the zero dimension |
| PersistHelper.NewLocale | servoy_shared/src/com/servoy/j2db/util/PersistHelper.java:219 | the Locale constructor keeps the language in lower and the country in upper case, and the variant as given |
| PersistHelper.NewLocaleOfNormalized | servoy_shared/src/com/servoy/j2db/util/PersistHelper.java:219 | constructing a locale from the parts of a Java locale gives that locale back |
| PersistHelper.CreateLocaleNormalisesCase | servoy_shared/src/com/servoy/j2db/util/PersistHelper.java:201-220 | createLocale of "EN,us" is Locale("en", "US", "") |
| PersistHelper.LocaleRoundTripFails | servoy_shared/src/com/servoy/j2db/util/PersistHelper.java:189-220 | createLocale as written turns the string of Locale("en", "", "POSIX") into Locale("en", "POSIX", "") |
| PersistHelper.Fields | servoy_shared/src/com/servoy/j2db/util/PersistHelper.java:189-199 | the comma-separated fields of a text: at least one, none holding a comma |
| PersistHelper.FieldsSingle | servoy_shared/src/com/servoy/j2db/util/PersistHelper.java:189-199 | a text without a comma is one field |
| PersistHelper.FieldsCons | servoy_shared/src/com/servoy/j2db/util/PersistHelper.java:189-199 | a field before a comma is split off whole, even when empty |
| PersistHelper.LocaleFieldsRoundTrip | servoy_shared/src/com/servoy/j2db/util/PersistHelper.java:189-220 | reading the three fields back restores every Java locale (lower-case language, upper-case country) whose parts hold no comma, empty parts included |
| PersistHelper.LocaleRoundTripWithoutEmptyParts | servoy_shared/src/com/servoy/j2db/util/PersistHelper.java:189-220 | for a Java locale with no empty part, createLocale as written round-trips too |
| PersistHelper.HexByte | servoy_shared/src/com/servoy/j2db/util/PersistHelper.java:364-369 | a channel as two hexadecimal digits |
| PersistHelper.HexByteDigits | servoy_shared/src/com/servoy/j2db/util/PersistHelper.java:364-369 | those two digits are digits of radix 16 with the channel's value, under any digit table that values ASCII hexadecimal digits as usual |
| PersistHelper.DecodeColor | servoy_shared/src/com/servoy/j2db/util/PersistHelper.java:337 | Color.decode, with Character.digit's table as a parameter: any colour it gives has channels in 0..255 |
| PersistHelper.CreateColor | servoy_shared/src/com/servoy/j2db/util/PersistHelper.java:330-357 | createColor, with Character.digit's table as a parameter: any colour it gives has channels in 0..255 |
| PersistHelper.CreateColorFullwidth | servoy_shared/src/com/servoy/j2db/util/PersistHelper.java:330-340 | with the fullwidth digits valued as Character.digit values them, "#" and fullwidth 123456 is Color(0x12, 0x34, 0x56) |
| PersistHelper.ColorDigitsValue | servoy_shared/src/com/servoy/j2db/util/PersistHelper.java:364-370 | the six digits hold red, green and blue as bits 16-23, 8-15 and 0-7 |
| PersistHelper.DecodeHash | servoy_shared/src/com/servoy/j2db/util/PersistHelper.java:337 | Integer.decode of "#" and digits of radix 16 is their value when it fits in an int |
| PersistHelper.ChannelsOf | servoy_shared/src/com/servoy/j2db/util/PersistHelper.java:337 | the channels of a number built from three bytes are those bytes |
| PersistHelper.ColorStringShape | servoy_shared/src/com/servoy/j2db/util/PersistHelper.java:359-373 | the colour string is "#" and six hexadecimal digits |
| PersistHelper.ColorRoundTrip | servoy_shared/src/com/servoy/j2db/util/PersistHelper.java:330-373 | createColor reads back every colour createColorString writes, null included, under any digit table that values ASCII hexadecimal digits as usual |
| PersistHelper.FontCssPropertiesNeedThreeTokens | servoy_shared/src/com/servoy/j2db/util/PersistHelper.java:604-633 | null and texts with fewer than three tokens give null, and only those |
| PersistHelper.FontStringTokens | servoy_shared/src/com/servoy/j2db/util/PersistHelper.java:570-582 | a font's text form has the tokens name, style and size |
| PersistHelper.FontCssPropertiesOfTokens | servoy_shared/src/com/servoy/j2db/util/PersistHelper.java:608-630 | three tokens give the family with two fallbacks, the size in pixels and the style entries |
| PersistHelper.FontCssPropertiesOfFontString | servoy_shared/src/com/servoy/j2db/util/PersistHelper.java:570-633 | the properties of a font's own text form follow its name, size and style |
| PersistHelper.FontStyleEntries | servoy_shared/src/com/servoy/j2db/util/PersistHelper.java:618-629 | a plain style gives "normal" for both entries; otherwise each entry is there exactly when its bit is set |
| PersistHelper.FontCssStringBold | servoy_shared/src/com/servoy/j2db/util/PersistHelper.java:584-602 | the CSS shorthand starts with "bold " exactly for bold fonts |
| PersistHelper.SplitCamelOnlyAddsSpaces | servoy_shared/src/com/servoy/j2db/util/PersistHelper.java:553-567 | splitting camel case only adds spaces |
| PersistHelper.SplitCamelHead | servoy_shared/src/com/servoy/j2db/util/PersistHelper.java:554-557 | the result starts with the text's first character |
| PersistHelper.SplitCamelSeparates | servoy_shared/src/com/servoy/j2db/util/PersistHelper.java:554-566 | for any LOWERCASE_LETTER and UPPERCASE_LETTER classes of Character.getType (the space in neither), afterwards no lowercase letter is directly followed by a capital |
| PersistHelper.SplitCamelNonAscii | servoy_shared/src/com/servoy/j2db/util/PersistHelper.java:554-566 | a non-ASCII lowercase letter before a capital is separated too: "éA" becomes "é A" |
| PersistHelper.SplitCamelKeepsOut | servoy_shared/src/com/servoy/j2db/util/PersistHelper.java:554-566 | splitting adds no character other than a space |
| PersistHelper.StringFormatProperties | servoy_shared/src/com/servoy/j2db/util/PersistHelper.java:543-568 | stringFormat keeps null and "", leaves no '-', and separates camel case under any letter classes of Character.getType that leave out the space |
| ImageLoader.ContentTypeReadsElevenBytes | servoy_shared/src/com/servoy/j2db/util/ImageLoader.java:81-93 | only the first eleven bytes count: what follows them changes nothing |
| ImageLoader.ContentTypeZeroPadded | servoy_shared/src/com/servoy/j2db/util/ImageLoader.java:81-82 | shorter data reads as if padded with zero bytes to eleven |
| ImageLoader.JavaClassFirst | servoy_shared/src/com/servoy/j2db/util/ImageLoader.java:95-98 | CAFEBABE is checked first: a class file is application/java-vm whatever its name |
| ImageLoader.PdfSignature | servoy_shared/src/com/servoy/j2db/util/ImageLoader.java:110-113 | "%PDF-1." is application/pdf |
| ImageLoader.GifSignature | servoy_shared/src/com/servoy/j2db/util/ImageLoader.java:188-191 | "GIF8" is image/gif |
| ImageLoader.PngSignature | servoy_shared/src/com/servoy/j2db/util/ImageLoader.java:203-206 | the eight-byte PNG signature is image/png |
| ImageLoader.ZipSignature | servoy_shared/src/com/servoy/j2db/util/ImageLoader.java:263-272 | "PK" is the name's type when the name gives one, else application/zip |
| ImageLoader.ContentTypeByExtension | servoy_shared/src/com/servoy/j2db/util/ImageLoader.java:282-324 | a name is recognised by its last extension, whatever the ASCII case of its letters |
| ImageLoader.ImageSizePixels | servoy_shared/src/com/servoy/j2db/util/ImageLoader.java:944-950 | "Npx" reads back as N for every int N |
| ImageLoader.ImageSizePercent | servoy_shared/src/com/servoy/j2db/util/ImageLoader.java:951-955 | "P%" is the int product P * container, wrapped to 32 bits, divided by 100 with truncation toward zero; exactly P percent while the product is an int |
| ImageLoader.ImageSizePercentWraps | servoy_shared/src/com/servoy/j2db/util/ImageLoader.java:951-955 | "99999999%" of a 100-pixel container wraps to 14100653, not 99999999 |
| ImageLoader.ImageSizeUnknown | servoy_shared/src/com/servoy/j2db/util/ImageLoader.java:944-959 | null and texts ending neither in "px" nor in "%" give -1 |
| ImageLoader.ImagePositionKeywords | servoy_shared/src/com/servoy/j2db/util/ImageLoader.java:961-988 | left and top give 0, right and bottom the free space (container - image, an int subtraction), center half of it truncated, null 0 |
| ImageLoader.ImagePositionPercent | servoy_shared/src/com/servoy/j2db/util/ImageLoader.java:970-974 | a percentage position is the int product of P and the free space, wrapped to 32 bits, divided by 100; exactly that share while the products are ints |
| ImageLoader.RepeatStartBounds | servoy_shared/src/com/servoy/j2db/util/ImageLoader.java:990-998 | a start at most 0 is kept; with a positive size a positive start lands in (-imageSize, 0], a whole number of tiles back; with a negative size the int wraps and the start lands in [-2^31, -2^31 - imageSize) |
| ImageLoader.RepeatStartBack | servoy_shared/src/com/servoy/j2db/util/ImageLoader.java:990-998 | with a positive size a positive start steps back into (-imageSize, 0], a whole number of tiles |
| ImageLoader.RepeatStartWraps | servoy_shared/src/com/servoy/j2db/util/ImageLoader.java:990-998 | with a negative size a positive start climbs until the int wraps and lands in [-2^31, -2^31 - imageSize) |
| ImageLoader.UnloadedImageRepeatStart | servoy_shared/src/com/servoy/j2db/util/ImageLoader.java:990-998 | with the size -1 of an image not yet loaded, every positive start ends at -2^31 |
| ImageLoader.AdjustRepeatCoordinate | servoy_shared/src/com/servoy/j2db/util/ImageLoader.java:990-998 | the loop, in Java int arithmetic, computes RepeatStart: the first tile's start |
| RelationItem.BaseOfSum | servoy_shared/src/com/servoy/j2db/persistence/RelationItem.java:164 | adding modifier bits to a base operator keeps both parts recoverable |
| RelationItem.SwapOperatorCases | servoy_shared/src/com/servoy/j2db/persistence/RelationItem.java:123-165 | swapOperator exchanges GT/LT and GTE/LTE, keeps EQUALS, NOT, LIKE and NOT_LIKE, and keeps the modifier bits |
| RelationItem.SwapOperatorUnsupported | servoy_shared/src/com/servoy/j2db/persistence/RelationItem.java:161-162 | swapOperator gives -1 exactly for the base operators it has no case for |
| RelationItem.SwapOperatorInvolution | servoy_shared/src/com/servoy/j2db/persistence/RelationItem.java:123-165 | swapping twice gives back any operator that can be swapped |
| RelationItem.ModifierBits | servoy_shared/src/com/servoy/j2db/persistence/RelationItem.java:98-115 | an operator with known modifiers has the case-insensitive and or-null bits exactly as its modifier part says |
| RelationItem.WithModifierKnown | servoy_shared/src/com/servoy/j2db/persistence/RelationItem.java:190 | or-ing a known modifier into known modifiers stays known and adds the bit only when it is missing |
| RelationItem.OperatorAsStringPlain | servoy_shared/src/com/servoy/j2db/persistence/RelationItem.java:100-104 | an operator without modifier bits prints as its bare operator string |
| RelationItem.FirstModifierPrefix | servoy_shared/src/com/servoy/j2db/persistence/RelationItem.java:184-193 | the modifier scan stops at the first modifier string the text starts with |
| RelationItem.StripModifiersKnown | servoy_shared/src/com/servoy/j2db/persistence/RelationItem.java:181-194 | the modifiers collected while stripping prefixes are known modifiers |
| RelationItem.FirstOperatorMatch | servoy_shared/src/com/servoy/j2db/persistence/RelationItem.java:196-202 | the operator scan stops at the first operator string that equalsIgnoreCase accepts for the text, character by character under Java's case mapping |
| RelationItem.ParseOperatorWellFormed | servoy_shared/src/com/servoy/j2db/persistence/RelationItem.java:172-206 | parseOperatorString gives -1 or a defined base operator with known modifiers |
| RelationItem.ParseOperatorString | servoy_shared/src/com/servoy/j2db/persistence/RelationItem.java:172-206 | the method with the source's two loops computes the parse function |
| RelationItem.FindOperator | servoy_shared/src/com/servoy/j2db/persistence/RelationItem.java:196-202 | the loop over the operator strings finds the first one equal to the text ignoring case |
| RelationItem.OperatorStringsAscii | servoy_shared/src/com/servoy/j2db/persistence/RelationItem.java:196-202 | the operator strings compared with equalsIgnoreCase are ASCII text |
| RelationItem.StripModifierString | servoy_shared/src/com/servoy/j2db/persistence/RelationItem.java:184-192 | a leading modifier string is removed and its bit or-ed in, then stripping goes on |
| RelationItem.OperatorStringsHaveNoModifierPrefix | servoy_shared/src/com/servoy/j2db/persistence/RelationItem.java:181-194 | no operator string starts with a modifier string, so stripping leaves it alone |
| RelationItem.OperatorStringFound | servoy_shared/src/com/servoy/j2db/persistence/RelationItem.java:196-202 | each operator string matches itself first in the table |
| RelationItem.FirstOperatorMatchSkips | servoy_shared/src/com/servoy/j2db/persistence/RelationItem.java:196-202 | the scan reaches the index of a match when no earlier string matches |
| RelationItem.ModifierPrefixOf | servoy_shared/src/com/servoy/j2db/persistence/RelationItem.java:105-112 | the modifier part printed by getOperatorAsString is the prefix of the known modifiers |
| RelationItem.StripPrefixOf | servoy_shared/src/com/servoy/j2db/persistence/RelationItem.java:181-194 | stripping a printed modifier prefix gives back its modifiers and the rest of the text |
| RelationItem.ParseOperatorAsString | servoy_shared/src/com/servoy/j2db/persistence/RelationItem.java:98-206 | getOperatorAsString prints every defined operator with known modifiers, and parsing the print gives the operator back |
| RelationItem.ParseOperatorInvalidExamples | servoy_shared/src/com/servoy/j2db/persistence/RelationItem.java:172-206 | null and an unknown word parse to -1 |
| RelationItem.ParseOperatorIgnoresCase | servoy_shared/src/com/servoy/j2db/persistence/RelationItem.java:181-202 | for every operator, every known set of modifier prefixes and every text equal to the operator's string ignoring case, the prefixes followed by the text parse to that operator with those modifiers |
| RelationItem.OperatorStringsDistinct | servoy_shared/src/com/servoy/j2db/persistence/RelationItem.java:196-202 | no two operator strings are equal ignoring case, so the first match is the only one |
| RelationItem.ParseOperatorUpperCase | servoy_shared/src/com/servoy/j2db/persistence/RelationItem.java:198 | "LIKE" parses as like |
| RelationItem.ParseOperatorMixedCase | servoy_shared/src/com/servoy/j2db/persistence/RelationItem.java:181-202 | "#lIkE" parses as like with the case-insensitive modifier |
| RelationItem.ParseOperatorFoldsBeyondAscii | servoy_shared/src/com/servoy/j2db/persistence/RelationItem.java:198 | equalsIgnoreCase also accepts characters whose Java case mapping reaches the letters: "lıke" parses as like, "İN" as in |
| RelationItem.ParseOperatorBothModifiers | servoy_shared/src/com/servoy/j2db/persistence/RelationItem.java:181-200 | both modifier prefixes are stripped before the operator word |
| RelationItem.NoModifierPrefix | servoy_shared/src/com/servoy/j2db/persistence/RelationItem.java:181-194 | text starting with no modifier string is left as it is |
| RelationItem.NoOperatorMatch | servoy_shared/src/com/servoy/j2db/persistence/RelationItem.java:196-205 | text equal to no operator string ends the scan at the end of the table |
| RelationItem.GetValidOperator | servoy_shared/src/com/servoy/j2db/persistence/RelationItem.java:215-260 | the method with the source's loops computes the validity function |
| RelationItem.FindIn | servoy_shared/src/com/servoy/j2db/persistence/RelationItem.java:224-259 | the search loop answers when the key is in the list and gives -1 otherwise |
| RelationItem.ValidOperatorExact | servoy_shared/src/com/servoy/j2db/persistence/RelationItem.java:224-235 | without a modifier list the parsed operator is accepted exactly when it is in the list |
| RelationItem.ClearKnownModifiers | servoy_shared/src/com/servoy/j2db/persistence/RelationItem.java:238-242 | clearing all modifier masks from known modifiers leaves nothing |
| RelationItem.ValidOperatorSeparate | servoy_shared/src/com/servoy/j2db/persistence/RelationItem.java:237-259 | with a modifier list, a parsed operator is accepted exactly when its base operator is in the list |
| RelationItem.CheckIfValidOperatorAcceptsEquals | servoy_shared/src/com/servoy/j2db/persistence/RelationItem.java:167-170 | "#=" (case-insensitive equals) is a valid relation operator |
| RelationItem.CheckIfValidOperatorRejectsGreater | servoy_shared/src/com/servoy/j2db/persistence/RelationItem.java:167-170 | "#>" is not: case-insensitive GT is not in the relation operator list |
| QueryJoin.AllConditions | servoy_shared/src/com/servoy/j2db/query/QueryJoin.java:105 | getAllConditions holds every subcondition of every group and nothing else |
| QueryJoin.FirstNonCompare | servoy_shared/src/com/servoy/j2db/query/QueryJoin.java:105-112 | the check loop finds the first subcondition that is not a compare, after only compares |
| QueryJoin.GetAndConditionAccepts | servoy_shared/src/com/servoy/j2db/query/QueryJoin.java:94-122 | a join condition is accepted exactly when it is a compare or an and of compares only; an and is kept as it is; the rejected condition is not a compare |
| QueryJoin.InvertedGroup | servoy_shared/src/com/servoy/j2db/query/QueryJoin.java:210-222 | a group keeps its length and each subcondition is its column-equality swap |
| QueryJoin.InvertedGroups | servoy_shared/src/com/servoy/j2db/query/QueryJoin.java:208-223 | every group is inverted, the number of groups kept |
| QueryJoin.SwapColumnEqualsCases | servoy_shared/src/com/servoy/j2db/query/QueryJoin.java:212-220 | only equals compares change; an equals between two columns gets its operands exchanged with its operator kept; swapping twice restores |
| QueryJoin.InvertedJoinTypeInvolution | servoy_shared/src/com/servoy/j2db/query/QueryJoin.java:226-228 | left and right outer trade places and nothing else changes; inverting twice restores |
| QueryJoin.InvertTwice | servoy_shared/src/com/servoy/j2db/query/QueryJoin.java:198-231 | inverting twice, back to the old name, restores the whole join |
| QueryJoin.JoinEqualsIgnoresPermanentAndComment | servoy_shared/src/com/servoy/j2db/query/QueryJoin.java:260-289 | two joins are equal exactly when they differ at most in permanence and comment |
| QueryJoin.HashCode | servoy_shared/src/com/servoy/j2db/query/QueryJoin.java:247-258 | the hash is a 32-bit int |
| QueryJoin.EqualJoinsHashAlike | servoy_shared/src/com/servoy/j2db/query/QueryJoin.java:247-289 | equal joins have equal hash codes |
| QueryJoin.JoinTypesLeavePermanentBitFree | servoy_shared/src/com/servoy/j2db/query/QueryJoin.java:38 | the known join types are below the permanent bit |
| QueryJoin.PackRoundTrip | servoy_shared/src/com/servoy/j2db/query/QueryJoin.java:315-342 | packing the join type with the permanent bit and reading it back gives both back |
| QueryJoin.PackLosesPermanentBit | servoy_shared/src/com/servoy/j2db/query/QueryJoin.java:315-342 | a join type that already has bit 16 set reads back as a permanent join without that bit |
| QueryJoin.SerializeRoundTrip | servoy_shared/src/com/servoy/j2db/query/QueryJoin.java:315-347 | a join is restored exactly from its serialised form |
| QueryJoin.RestoreLegacy | servoy_shared/src/com/servoy/j2db/query/QueryJoin.java:330-346 | a legacy foreign table becomes a table expression, and data without a comment member restores a join without comment |
| QueryJoin.Join.constructor | servoy_shared/src/com/servoy/j2db/query/QueryJoin.java:84-92 | the fields are the arguments, the condition the accepted and-condition |
| QueryJoin.Join.FromReplaced | servoy_shared/src/com/servoy/j2db/query/QueryJoin.java:323-347 | the fields are those restored from the serialised members |
| QueryJoin.Join.Invert | servoy_shared/src/com/servoy/j2db/query/QueryJoin.java:198-231 | the new state is the inverted join: tables exchanged, column equalities swapped, outer joins flipped, new name |
| QueryJoin.Join.InvertGroups | servoy_shared/src/com/servoy/j2db/query/QueryJoin.java:208-223 | the loop over the groups computes the inverted groups |
| QueryJoin.Join.InvertConditions | servoy_shared/src/com/servoy/j2db/query/QueryJoin.java:210-222 | the loop over one group computes the inverted group |
| ColumnInfo.NonEmptyValue | servoy_shared/src/com/servoy/j2db/persistence/ColumnInfo.java:656-660 | the result is null or the text unchanged |
| ColumnInfo.NonEmptyValueDropsBlank | servoy_shared/src/com/servoy/j2db/persistence/ColumnInfo.java:656-660 | exactly null and blank texts become null; applying it twice is applying it once |
| ColumnInfo.SequenceNameNormalises | servoy_shared/src/com/servoy/j2db/persistence/ColumnInfo.java:180-195 | the stored name is null exactly for null or blank input, else the trimmed name cut to at most 50 characters |
| ColumnInfo.SequenceNameStable | servoy_shared/src/com/servoy/j2db/persistence/ColumnInfo.java:180-195 | storing a stored name again changes nothing when that name does not end in a blank; a 50-character cut can end in one, and storing it again trims it |
| ColumnInfo.FlagsAfterSetsOrClears | servoy_shared/src/com/servoy/j2db/persistence/ColumnInfo.java:585-589 | setting gives every bit of the flag, clearing none, and the other bits stay |
| ColumnInfo.HasFlagAfter | servoy_shared/src/com/servoy/j2db/persistence/ColumnInfo.java:585-596 | after setFlag the flag reads as set exactly when it was set and is not 0 |
| ColumnInfo.HasOtherFlagAfter | servoy_shared/src/com/servoy/j2db/persistence/ColumnInfo.java:585-596 | a flag sharing no bit with the changed one reads as before |
| ColumnInfo.AutoEnterKinds | servoy_shared/src/com/servoy/j2db/persistence/ColumnInfo.java:116-130 | a setting is never both a sequence and a system value; database sequence and identity are sequences; database managed is a system value; a fresh setting is neither |
| ColumnInfo.SameAutoEnterTypeAsWrittenFails | servoy_shared/src/com/servoy/j2db/persistence/ColumnInfo.java:602-636 | as written, a fresh setting does not match itself, and the comparison is not symmetric |
| ColumnInfo.SameAutoEnterTypeReflexiveSymmetric | servoy_shared/src/com/servoy/j2db/persistence/ColumnInfo.java:602-636 | the corrected comparison is reflexive and symmetric |
| ColumnInfo.SameAutoEnterTypeCases | servoy_shared/src/com/servoy/j2db/persistence/ColumnInfo.java:602-636 | two database sequences match on their names, other typed settings on type and sub type, and no auto-enter matches exactly the settings without a sequence or system value selected |
| ColumnInfo.SameAutoEnterTypeCorrection | servoy_shared/src/com/servoy/j2db/persistence/ColumnInfo.java:611-614 | the correction changes only the branch where this side has no auto-enter and the other an unrelated type |
| ColumnInfo.ColumnInfo.constructor | servoy_shared/src/com/servoy/j2db/persistence/ColumnInfo.java:67-73 | id and persistence are the arguments; an info not stored persistently starts out changed; the other fields have their defaults |
| ColumnInfo.ColumnInfo.FlagChanged | servoy_shared/src/com/servoy/j2db/persistence/ColumnInfo.java:95-98 | the info is marked changed |
| ColumnInfo.ColumnInfo.FlagStored | servoy_shared/src/com/servoy/j2db/persistence/ColumnInfo.java:105-109 | the info is no longer changed and is stored persistently |
| ColumnInfo.ColumnInfo.SetDatabaseSequenceName | servoy_shared/src/com/servoy/j2db/persistence/ColumnInfo.java:180-195 | the setting's sequence name becomes the normalised name, nothing else changes |
| ColumnInfo.ColumnInfo.SetText | servoy_shared/src/com/servoy/j2db/persistence/ColumnInfo.java:204-365 | a text setter removes the property for null or blank text and stores the text otherwise |
| ColumnInfo.ColumnInfo.SetFlag | servoy_shared/src/com/servoy/j2db/persistence/ColumnInfo.java:585-589 | the flag word becomes the word with the flag set or cleared |
| ColumnInfo.ColumnInfo.HasSameAutoEnterType | servoy_shared/src/com/servoy/j2db/persistence/ColumnInfo.java:602-636 | the answer is the corrected comparison of the info's setting with the given one |
| ColumnInfo.SetTextReadsBack | servoy_shared/src/com/servoy/j2db/persistence/ColumnInfo.java:204-365 | a text property reads back what was set, or null for null or blank text; other properties keep their values |
| IdentValidator.ValidateIdentifier | servoy_shared/src/com/servoy/j2db/util/docvalidator/IdentDocumentValidator.java:84-111 | the loop accepts exactly the texts that are identifiers: non-empty with a start character at a start (no leading underscore for SQL), part characters throughout |
| IdentValidator.SqlIdentifiers | servoy_shared/src/com/servoy/j2db/util/docvalidator/IdentDocumentValidator.java:40-50 | a SQL identifier is a Java identifier that does not start with an underscore |
| IdentValidator.EmptyText | servoy_shared/src/com/servoy/j2db/util/docvalidator/IdentDocumentValidator.java:87-92 | the empty text is refused at the start and accepted elsewhere |
| IdentValidator.StartIsStricter | servoy_shared/src/com/servoy/j2db/util/docvalidator/IdentDocumentValidator.java:84-111 | text valid at the start is valid anywhere |
| IdentValidator.InsertKeepsIdentifier | servoy_shared/src/com/servoy/j2db/util/docvalidator/IdentDocumentValidator.java:52-59 | inserting accepted text into an identifier after its start keeps it an identifier |
| IdentValidator.ValidateInsertString | servoy_shared/src/com/servoy/j2db/util/docvalidator/IdentDocumentValidator.java:52-59 | an insert is accepted, unchanged, exactly when the text is valid, at the start when the offset is 0 |
| IdentValidator.ValidateReplace | servoy_shared/src/com/servoy/j2db/util/docvalidator/IdentDocumentValidator.java:61-82 | the method returns the replace decision for the document and text |
| IdentValidator.ReplaceAtStart | servoy_shared/src/com/servoy/j2db/util/docvalidator/IdentDocumentValidator.java:68-76 | a replace at the start of a non-empty document is accepted exactly when it empties the document or leaves an identifier, and then returns the text |
| IdentValidator.ReplaceMayClear | servoy_shared/src/com/servoy/j2db/util/docvalidator/IdentDocumentValidator.java:63-75 | replacing the whole document by nothing is always accepted |
| IdentValidator.ReplaceInsideKeepsIdentifier | servoy_shared/src/com/servoy/j2db/util/docvalidator/IdentDocumentValidator.java:77-80 | an accepted replace after the start keeps an identifier an identifier |
| EditedRecords.RecordsOf | servoy_shared/src/com/servoy/j2db/dataprocessing/EditedRecords.java:102-105 | the records of a type are at most as many as the entries |
| EditedRecords.RecordsOfMembers | servoy_shared/src/com/servoy/j2db/dataprocessing/EditedRecords.java:107-110 | a record is among the records of a type exactly when an entry of that type holds it |
| EditedRecords.UniqueAppend | servoy_shared/src/com/servoy/j2db/dataprocessing/EditedRecords.java:63-69 | appending keeps the records unique exactly when the record is new |
| EditedRecords.Filtered | servoy_shared/src/com/servoy/j2db/dataprocessing/EditedRecords.java:112-120 | removeIf keeps at most the entries it had |
| EditedRecords.FilteredRecords | servoy_shared/src/com/servoy/j2db/dataprocessing/EditedRecords.java:112-120 | removing drops exactly the listed records and keeps the others with their types |
| EditedRecords.FilteredUnique | servoy_shared/src/com/servoy/j2db/dataprocessing/EditedRecords.java:112-120 | removing keeps the records unique |
| EditedRecords.RecordsPartition | servoy_shared/src/com/servoy/j2db/dataprocessing/EditedRecords.java:97-135 | the edited and the deleted records together are all the entries |
| EditedRecords.NeverEditedAndDeleted | servoy_shared/src/com/servoy/j2db/dataprocessing/EditedRecords.java:63-75 | no record is both edited and deleted |
| EditedRecords.AppendedEntry | servoy_shared/src/com/servoy/j2db/dataprocessing/EditedRecords.java:63-75 | a new entry is last among the records of its type and all records, and the other type is unchanged |
| EditedRecords.AddDeletedEffect | servoy_shared/src/com/servoy/j2db/dataprocessing/EditedRecords.java:71-75 | after addDeleted the record is deleted and not edited; the other records keep their registrations |
| EditedRecords.EditedRecords.constructor | servoy_shared/src/com/servoy/j2db/dataprocessing/EditedRecords.java:37 | the list starts empty |
| EditedRecords.EditedRecords.Contains | servoy_shared/src/com/servoy/j2db/dataprocessing/EditedRecords.java:77-110 | containsEdited, containsDeleted and contains(record): some entry of the type, or of any type, holds the record |
| EditedRecords.EditedRecords.ContainsMatching | servoy_shared/src/com/servoy/j2db/dataprocessing/EditedRecords.java:92-95 | contains(filter): some registered record passes the filter |
| EditedRecords.EditedRecords.Get | servoy_shared/src/com/servoy/j2db/dataprocessing/EditedRecords.java:122-140 | getEdited, getDeleted and getAll: exactly the records of the entries of the type; getAll gives every entry's record in registration order |
| EditedRecords.RecordsOfAll | servoy_shared/src/com/servoy/j2db/dataprocessing/EditedRecords.java:102-105 | without a type every entry's record is kept, in order |
| EditedRecords.RecordsOfIndexes | servoy_shared/src/com/servoy/j2db/dataprocessing/EditedRecords.java:102-110 | the records of a type are exactly those of the entries of that type |
| EditedRecords.RecordsOfAnyMatch | servoy_shared/src/com/servoy/j2db/dataprocessing/EditedRecords.java:92-95 | some registered record passes a filter exactly when some entry's record does |
| EditedRecords.EditedRecords.Size | servoy_shared/src/com/servoy/j2db/dataprocessing/EditedRecords.java:97-100 | size counts the edited plus the deleted records |
| EditedRecords.EditedRecords.AddEdited | servoy_shared/src/com/servoy/j2db/dataprocessing/EditedRecords.java:63-69 | a registered record leaves the list as it was; a new one is appended as an edit; records stay unique |
| EditedRecords.EditedRecords.AddDeleted | servoy_shared/src/com/servoy/j2db/dataprocessing/EditedRecords.java:71-75 | the record's entries are removed and a delete entry appended; records stay unique |
| EditedRecords.EditedRecords.Remove | servoy_shared/src/com/servoy/j2db/dataprocessing/EditedRecords.java:117-120 | the record's entries are removed, and the answer tells whether it was registered |
| EditedRecords.EditedRecords.RemoveAll | servoy_shared/src/com/servoy/j2db/dataprocessing/EditedRecords.java:112-115 | the entries of every listed record are removed |
| EditedRecords.EditedRecords.Clear | servoy_shared/src/com/servoy/j2db/dataprocessing/EditedRecords.java:142-145 | the list becomes empty |
| EditedRecords.RemoveEach | servoy_shared/src/com/servoy/j2db/dataprocessing/EditedRecords.java:112-120 | the removeIf loop keeps the unlisted entries in order and tells whether any was removed |
| EditedRecords.FilteredShorter | servoy_shared/src/com/servoy/j2db/dataprocessing/EditedRecords.java:117-120 | something is removed exactly when some listed record was registered |
| Form.CompareOrders | servoy_shared/src/com/servoy/j2db/persistence/Form.java:1017-1026 | for part types and heights in the non-negative int range, PartComparator orders by part type, then by height, and returns 0 only for equal type and height |
| Form.CompareOverflows | servoy_shared/src/com/servoy/j2db/persistence/Form.java:1017-1026 | the 32-bit subtraction wraps: a part of height -2^31 sorts after a part of height 1 |
| Form.TotalHeight | servoy_shared/src/com/servoy/j2db/persistence/Form.java:489-493 | the largest part height (0 at least) is reached by some part and no part is taller |
| Form.CheckParts | servoy_shared/src/com/servoy/j2db/persistence/Form.java:487-503 | the loop computes the checked size |
| Form.CheckedSizeFits | servoy_shared/src/com/servoy/j2db/persistence/Form.java:487-503 | no stored size gives width 640 by the tallest part; a stored width is kept; when some part is taller than 0 the height is exactly the tallest part's, shrinking a taller stored height; with no positive height the stored size is kept |
| Form.CheckedSizeIdempotent | servoy_shared/src/com/servoy/j2db/persistence/Form.java:183-188 | getSize stores its answer, so asking again gives the same size |
| Form.IndexOfPart | servoy_shared/src/com/servoy/j2db/persistence/Form.java:519-527 | the scan stops at the first part with the id |
| Form.FindPartStartYPos | servoy_shared/src/com/servoy/j2db/persistence/Form.java:511-528 | the loop computes the start position |
| Form.PartStartYPosCases | servoy_shared/src/com/servoy/j2db/persistence/Form.java:511-528 | a part starts at the height of the part before it, the first part at 0 |
| Form.PartStartYPosMissing | servoy_shared/src/com/servoy/j2db/persistence/Form.java:511-528 | an unknown id gives the height of the last part |
| Form.FindPartEndYPos | servoy_shared/src/com/servoy/j2db/persistence/Form.java:536-558 | the loop computes the end position |
| Form.EndScanBefore | servoy_shared/src/com/servoy/j2db/persistence/Form.java:543-556 | parts before the part, no taller than the default end, do not stop the scan |
| Form.EndScanAfter | servoy_shared/src/com/servoy/j2db/persistence/Form.java:543-557 | after the part the scan answers the first taller height, or the default end 50000 when none is taller |
| Form.PartEndYPosOfPart | servoy_shared/src/com/servoy/j2db/persistence/Form.java:536-558 | a part with a unique id ends where the first later taller part ends, or at 50000 |
| Form.IndexOfPartAt | servoy_shared/src/com/servoy/j2db/persistence/Form.java:560-572 | the scan stops at the first part reaching down to y |
| Form.FindPartAt | servoy_shared/src/com/servoy/j2db/persistence/Form.java:560-572 | the loop computes the part at y |
| Form.PartAtFinds | servoy_shared/src/com/servoy/j2db/persistence/Form.java:560-572 | no part exactly when every part ends above y; otherwise the first part reaching y |
| Form.PartAtMonotone | servoy_shared/src/com/servoy/j2db/persistence/Form.java:560-572 | a lower position is never in an earlier part |
| Form.EncapsulationExclusive | servoy_shared/src/com/servoy/j2db/persistence/Form.java:2089-2101 | the stored encapsulation is never both private and module private; other bits are kept; a value without both flags is stored as given; with both, the flag the form did not have wins |
| Form.PaperPrintScale | servoy_shared/src/com/servoy/j2db/persistence/Form.java:373-381 | the scale is never 0: a stored 0 reads as 100, other values as stored |
| Form.Form.constructor | servoy_shared/src/com/servoy/j2db/persistence/Form.java:460-463 | a form holds its parts and no stored size, encapsulation or scale |
| Form.Form.GetSize | servoy_shared/src/com/servoy/j2db/persistence/Form.java:183-188 | getSize answers the checked size and stores it |
| Form.Form.SetEncapsulation | servoy_shared/src/com/servoy/j2db/persistence/Form.java:2089-2101 | the stored value is the adjusted encapsulation, never both private and module private |
| PageJSActionBuffer.Kept | servoy_headless_client/src/com/servoy/j2db/server/headlessclient/PageJSActionBuffer.java:242-246 | no action left in the buffer applies to the target, and none is added |
| PageJSActionBuffer.KeptMembers | servoy_headless_client/src/com/servoy/j2db/server/headlessclient/PageJSActionBuffer.java:242-246 | an action stays exactly when it was there and did not apply |
| PageJSActionBuffer.KeptNothingApplies | servoy_headless_client/src/com/servoy/j2db/server/headlessclient/PageJSActionBuffer.java:242-246 | a buffer none of whose actions applies is left as it is |
| PageJSActionBuffer.KeptIdempotent | servoy_headless_client/src/com/servoy/j2db/server/headlessclient/PageJSActionBuffer.java:240-252 | applying to the same target again removes nothing more |
| PageJSActionBuffer.HeaderKeepsDialogs | servoy_headless_client/src/com/servoy/j2db/server/headlessclient/PageJSActionBuffer.java:92-96 | a header applies all javascript and no dialog operation: only dialog operations stay, and the buffer empties exactly when it held only javascript |
| PageJSActionBuffer.ApplyEach | servoy_headless_client/src/com/servoy/j2db/server/headlessclient/PageJSActionBuffer.java:242-252 | the iterator loop keeps the actions that did not apply and writes their javascript in order |
| PageJSActionBuffer.ApplyByIndex | servoy_headless_client/src/com/servoy/j2db/server/headlessclient/PageJSActionBuffer.java:267-274 | the index loop over the root page's buffer keeps exactly the actions that did not apply |
| PageJSActionBuffer.BatchIdsDistinct | servoy_headless_client/src/com/servoy/j2db/server/headlessclient/PageJSActionBuffer.java:40-45 | different counter values give different batch ids |
| PageJSActionBuffer.BatchCounter.constructor | servoy_headless_client/src/com/servoy/j2db/server/headlessclient/PageJSActionBuffer.java:40 | the counter starts at 1 |
| PageJSActionBuffer.BatchCounter.NewBatchId | servoy_headless_client/src/com/servoy/j2db/server/headlessclient/PageJSActionBuffer.java:42-45 | the id is "dd_ab_" and the counter, which then moves on by one |
| PageJSActionBuffer.KeptOneTriggerPerPage | servoy_headless_client/src/com/servoy/j2db/server/headlessclient/PageJSActionBuffer.java:309-312 | removing actions keeps at most one trigger per page |
| PageJSActionBuffer.PageJSActionBuffer.constructor | servoy_headless_client/src/com/servoy/j2db/server/headlessclient/PageJSActionBuffer.java:37-38 | both buffers start empty |
| PageJSActionBuffer.PageJSActionBuffer.AddAction | servoy_headless_client/src/com/servoy/j2db/server/headlessclient/PageJSActionBuffer.java:230-233 | the action is appended to the main buffer |
| PageJSActionBuffer.PageJSActionBuffer.HasAjaxUpdateTrigger | servoy_headless_client/src/com/servoy/j2db/server/headlessclient/PageJSActionBuffer.java:314-326 | the answer is whether a trigger for the page is queued |
| PageJSActionBuffer.PageJSActionBuffer.TriggerAjaxUpdate | servoy_headless_client/src/com/servoy/j2db/server/headlessclient/PageJSActionBuffer.java:309-312 | a trigger is appended only when its page has none, so there is at most one per page |
| PageJSActionBuffer.PageJSActionBuffer.ApplyAjax | servoy_headless_client/src/com/servoy/j2db/server/headlessclient/PageJSActionBuffer.java:240-282 | both buffers are applied to the own page's response and the applied actions removed; a non-empty other buffer is applied under a fresh batch id, which moves the counter on; the other buffer's triggers are untouched |
| PageJSActionBuffer.PageJSActionBuffer.ApplyHeader | servoy_headless_client/src/com/servoy/j2db/server/headlessclient/PageJSActionBuffer.java:287-301 | the javascript runs and leaves, the dialog operations stay, and the answer tells whether both buffers are empty |
| PageJSActionBuffer.PageJSActionBuffer.Clear | servoy_headless_client/src/com/servoy/j2db/server/headlessclient/PageJSActionBuffer.java:303-307 | both buffers become empty |
| PerformanceTiming.StatsBounds | servoy_shared/src/com/servoy/j2db/server/shared/PerformanceTimingAggregate.java:84-92 | the statistics of a series of runs hold its smallest and its largest running time, both reached by some run |
| PerformanceTiming.FoldIsStats | servoy_shared/src/com/servoy/j2db/server/shared/PerformanceTimingAggregate.java:84-92 | updating a fresh aggregate run by run (each run counting records) gives the series' statistics |
| PerformanceTiming.MergedStats | servoy_shared/src/com/servoy/j2db/server/shared/PerformanceTimingAggregate.java:122-130 | merging the statistics of two series gives the statistics of both together |
| PerformanceTiming.MergedAssociative | servoy_shared/src/com/servoy/j2db/server/shared/PerformanceTimingAggregate.java:122-130 | merging is associative |
| PerformanceTiming.MergedIntoFresh | servoy_shared/src/com/servoy/j2db/server/shared/PerformanceTimingAggregate.java:122-130 | merging into an aggregate that saw no runs folds its min and max of 0 into the result |
| PerformanceTiming.SubActionFirstUpdate | servoy_shared/src/com/servoy/j2db/server/shared/PerformanceTimingAggregate.java:45-92 | the sub-action aggregate starts at count -1, so its first run folds min and max with 0 instead of setting them and leaves the count at nrecords - 1 |
| PerformanceTiming.SubActionSecondUpdateResets | servoy_shared/src/com/servoy/j2db/server/shared/PerformanceTimingAggregate.java:45-92 | after a first run of one record the count is 0, so the second run sets min and max to its own time and the first run's extremes are lost |
| PerformanceTiming.AverageBounds | servoy_shared/src/com/servoy/j2db/server/shared/PerformanceTimingAggregate.java:147-157 | for a positive count the average is the total divided down |
| PerformanceTiming.WaitingAddsNothing | servoy_shared/src/com/servoy/j2db/server/shared/PerformanceTimingAggregate.java:103-107 | sub-actions that all wait for user input add no time |
| PerformanceTiming.SumSubTimes | servoy_shared/src/com/servoy/j2db/server/shared/PerformanceTimingAggregate.java:96-109 | the loop sums the interval and running times of the sub-actions not waiting for user input |
| PerformanceTiming.PerformanceTimingAggregate.constructor | servoy_shared/src/com/servoy/j2db/server/shared/PerformanceTimingAggregate.java:45-52 | a new aggregate has zero counters and a fresh sub-action aggregate named after it, whose count starts at -1 |
| PerformanceTiming.PerformanceTimingAggregate.SubActions | servoy_shared/src/com/servoy/j2db/server/shared/PerformanceTimingAggregate.java:76-82 | the sub-action aggregate is a method call with zero counters and no sub-action aggregate |
| PerformanceTiming.PerformanceTimingAggregate.Copy | servoy_shared/src/com/servoy/j2db/server/shared/PerformanceTimingAggregate.java:54-74 | the copy has the same action, type and counters and a copied sub-action aggregate when there is one |
| PerformanceTiming.PerformanceTimingAggregate.CopyOfSubActions | servoy_shared/src/com/servoy/j2db/server/shared/PerformanceTimingAggregate.java:54-74 | copying a sub-action aggregate gives the same action, type and counters |
| PerformanceTiming.PerformanceTimingAggregate.UpdateTime | servoy_shared/src/com/servoy/j2db/server/shared/PerformanceTimingAggregate.java:84-92 | the counters become those updated with the run |
| PerformanceTiming.PerformanceTimingAggregate.MergeTime | servoy_shared/src/com/servoy/j2db/server/shared/PerformanceTimingAggregate.java:122-130 | the counters become the merge with the given counters |
| PerformanceTiming.PerformanceTimingAggregate.UpdateSubActionTimes | servoy_shared/src/com/servoy/j2db/server/shared/PerformanceTimingAggregate.java:94-115 | when the non-waiting sub-actions took time the sub-action aggregate is updated with their totals; otherwise nothing changes |
| ServoyException.NewServoyException | servoy_shared/src/com/servoy/j2db/util/ServoyException.java:197-200 | the no-argument constructor gives error code 0 and no cause |
| ServoyException.FindErrorCode | servoy_shared/src/com/servoy/j2db/util/ServoyException.java:368-379 | the code found is never negative |
| ServoyException.FindErrorCodeFirstPositive | servoy_shared/src/com/servoy/j2db/util/ServoyException.java:368-379 | findErrorCode gives the first positive code along the chain of ServoyExceptions, and 0 exactly when there is none |
| ServoyException.HasErrorCode | servoy_shared/src/com/servoy/j2db/util/ServoyException.java:381-392 | hasErrorCode holds exactly when the code is on the chain of ServoyExceptions |
| ServoyException.FoundCodeIsHeld | servoy_shared/src/com/servoy/j2db/util/ServoyException.java:368-392 | a positive code that is found is a code the exception has |
| ServoyException.WrappingKeepsCode | servoy_shared/src/com/servoy/j2db/util/ServoyException.java:368-392 | wrapping in an exception without a positive code changes neither query for other codes |
| ServoyException.ForeignCauseStops | servoy_shared/src/com/servoy/j2db/util/ServoyException.java:374-378 | a cause that is not a ServoyException ends the search |
| ServoyException.ToString | servoy_shared/src/com/servoy/j2db/util/ServoyException.java:469-477 | code 0 prints "ServoyException"; otherwise the class name, followed by ": " and the message when there is one |
| ServoyException.DefaultException | servoy_shared/src/com/servoy/j2db/util/ServoyException.java:197-200 | a default exception prints as "ServoyException", finds no code and has code 0 |

## Left out

- `array.js` Angular plumbing: `$watch`/`$watchCollection`, `$sabloConverters`, `$sabloUtils` and `angular.equals` are collaborators outside the core. They are modelled as a record of function values (conversion, equality, change checks) and as an abstract registry of watches. The callbacks those watches run are not modelled beyond the marks they leave.
- ArraySync.FromServerToClient: payloads that make the browser code throw a TypeError (a granular or initialize-only payload with no current value, a granular payload without internal state, a no-op "n" payload for a current array without internal state) are excluded by its requires, not modelled as errors.
- ArraySync.FromClientToServer: the sparse path asks a value for isChanged() without checking that it is a smart value; its requires excludes the arrays for which that call would throw.
- The RelationItem and QueryJoin models assume the constants of `ISQLCondition`, `IBaseSQLCondition` and `ISQLJoin`, because those interfaces are not part of this model. The assumed values: operators 0..8 with their strings, mask 0xFF, modifiers 0x100 ("#") and 0x200 ("^||"), join types INNER 0, LEFT OUTER 1, RIGHT OUTER 2, FULL 3.
- RelationItem: the property setters and getters of the persist and `contentEquals` only store and compare fields, so they are not modelled.
- QueryJoin: `toString`, `acceptVisitor` and `shallowClone` are not modelled. The hash codes of the tables, condition and name come from their own classes and are parameters.
- QueryJoin.Join.constructor: a condition that `getAndCondition` rejects throws IllegalArgumentException. The constructor's requires excludes it; `GetAndCondition` itself models the rejection as an error result.
- QueryJoin.Join.Invert: the cast of the foreign reference to a table expression fails for a derived table, so the requires excludes that case. The join's condition is a value in the model. In Java the constructor keeps the caller's AndCondition object, `invert` rewrites its lists in place, and `shallowClone` shares it, so inverting also changes the caller's condition and every clone's. That in-place rewrite of a shared condition and its aliasing are not modelled.
- ColumnInfo: the display strings (`getSeqDisplayTypeString`, `getAutoEnterTypeString`, `getTextualPropertyInfo`, `toHTML`) are not modelled, nor are `isExcluded` and the plain getters and setters of ids and sequence numbers. Flags are kept as 32-bit words.
- IdentValidator: identifier start and part characters follow Java's rules only in the ASCII range (letters, `$` and `_` start; digits and the ignorable control characters may follow). Unicode letter classes are not modelled.
- IdentValidator.ValidateReplace: its requires asks for 0 <= length <= document length only where `Document.getText` is called, a replace at offset 0 of a non-empty document; outside that range the call throws BadLocationException, which is not modelled. Swing keeps the range valid.
- EditedRecords: the synchronised list's locking is not modelled (the model is sequential). Records are compared with `==` for `equals`. `contains(filter)` is a predicate over a function value.
- Form: the parts are given in `getParts` order; sorting them with `PartComparator` (the iterator that does it) is not part of this model. The other stored properties of a form and their setters are not modelled.
- Form.CompareOrders: proved only for part types and heights between 0 and 2^31 - 1. Outside that range the 32-bit subtraction can wrap, as CompareOverflows shows.
- Form.PartEndYPosOfPart: stated for a part whose id is unique and for parts that end no lower than 50000.
- PageJSActionBuffer: the effects of dialog operations (show, close, bounds, re-attaching behaviours) and the `DivWindow` batch scripts are not modelled. A dialog operation applies or not exactly as its switch says. A `show` from a child frame queues a re-attach action on the main page; that re-queueing is left out.
- PageJSActionBuffer.BatchCounter.NewBatchId: the static `batchID` is an explicit counter object. Its Java int wrap-around is not modelled.
- PerformanceTiming: `getStandardDeviation` (floating point), `addTiming` and the `PerformanceAggregator` base class (the kept entries) are not modelled. The atomic counters are modelled as plain fields, without concurrency and without Java long/int overflow.
- PerformanceTiming.PerformanceTimingAggregate.UpdateSubActionTimes: on an aggregate without a sub-action aggregate the source dereferences null; the model reports that as `ok == false`.
- ServoyException: cause chains are finite datatypes, so a cyclic cause chain is not modelled. The message resources and tag values behind `getMessage` are parameters.
- PersistHelper.CreateLocale: the Locale constructor's case normalisation is modelled, but its renaming of the old ISO language codes (he/iw, yi/ji, id/in) is not, because its direction depends on the Java version.
- PersistHelper.StringFormat: the LOWERCASE_LETTER and UPPERCASE_LETTER classes of `Character.getType` are a parameter, since the Unicode character database is not part of this model. Texts are code points; Java tests UTF-16 units, so a letter outside the Basic Multilingual Plane must be left out of both classes to match Java.
- RelationItem.ParseOperatorString: Java's case tables enter only through `FoldToAscii`, which lists the four non-ASCII characters whose case mapping reaches an ASCII letter. That suffices because the operator strings are ASCII; the Unicode database itself is not modelled.
- PersistHelper: page formats, font creation through AWT (`createFont`) and the byte conversions are not modelled.
- PersistHelper: the colour names `createColor` accepts are the public constants of `java.awt.Color`, looked up in a fixed table instead of by reflection.
- ImageLoader: image decoding, resizing and painting are not modelled. The MIME table that `contentTypeByName` loads from a resource is a parameter.
- ImageLoader.ContentTypeByName: the extension is lowered with ASCII case mapping. Java's `toLowerCase()` follows Unicode and the default locale, so under a Turkish locale "x.GIF" lowers to "gıf" and finds no type; that locale dependence is not modelled.
- ImageLoader.ContentTypeByExtension: stated for extensions that differ from the registry key in ASCII case only, for the reason above.
- ImageLoader.ImageSizePercent: `Utils.getAsInteger` is not part of this model. It is modelled as trimmed optional sign and digits, else 0, and the lemma speaks only of percentages that are ints; what it returns for digits beyond the int range is not modelled. The products are Java int products, wrapped to 32 bits.
- ImageLoader.ImageSizePixels: stated for pixel counts in the int range only, for the same reason.
- ImageLoader.ImagePositionPercent: stated for percentages in the int range only, for the same reason; the free space and the product wrap as Java ints.
- ImageLoader.AdjustRepeatCoordinate: the source loops forever for a positive start and a tile size of 0, so the requires excludes that case. Negative sizes are modelled, with Java's int wrap-around.
- TableSortSpec.CompareCells: number cells are integers, compared through the double doubleValue gives, rounded half to even to 53 bits; non-integral numbers, NaN, and BigInteger values so large their double is infinite are not modelled, nor are other `Comparable` types.
- TableSort.TableSorter.Sort: its requires asks that every index names a row of the model; Java would throw for one that does not.
- FoundsetSync: listener registration and the viewport data monitor's internals are not modelled. Its calls are recorded as queued operations and flags.
- FoundsetSync: preferred viewport bounds are counted as requests.
- FoundsetSync.ChangeMonitor.SelectionChanged: the final `setDataAdapterListToSelectedRecord()` moves the data adapter list to the selected record. That list is outside the model, so the call is left out; the flags and the notification are modelled.
- ColumnInfo.SequenceNameNormalises: names are strings of characters, so the 50-character cut counts code points. Java's `length()` and `substring(0, 50)` count UTF-16 code units, so a name with characters outside the Basic Multilingual Plane is cut earlier in Java, and the cut can split a surrogate pair, which a string of characters cannot hold. The same holds for ColumnInfo.ColumnInfo.SetDatabaseSequenceName.

- PersistHelper.DecodeColor / PersistHelper.CreateColor: Character.digit's values come from the Unicode character database, which is not part of this model, so the digit table is a parameter. The round trip is proved for every table that values '0'-'9', 'a'-'f' and 'A'-'F' as usual, which Java's does.

## Findings

| source | as written | input that shows it | evidently intended | confidence | as-written member | corrected member |
|---|---|---|---|---|---|---|
| servoy_shared/src/com/servoy/j2db/util/PersistHelper.java:201-220 | createLocale reads the string with a StringTokenizer, which skips empty tokens, so an empty country shifts the variant into the country | Locale("en", "", "POSIX") is written as "en,,POSIX" and read back as Locale("en", "POSIX", "") | createLocale(createLocaleString(l)) == l for every locale whose parts hold no comma | not executed | PersistHelper.LocaleRoundTripFails | PersistHelper.LocaleFieldsRoundTrip |
| servoy_shared/src/com/servoy/j2db/persistence/ColumnInfo.java:602-636 | with no auto-enter on this side and another type that is neither sequence nor system value, it compares the other SUB type with NO_AUTO_ENTER | a fresh column info (type NO_AUTO_ENTER, sub type NO_SEQUENCE_SELECTED = -1) does not have the same auto-enter type as its own setting; no auto-enter matches a custom value with sub type 0, but not the other way round | the comparison is reflexive and symmetric: that branch compares the other TYPE with NO_AUTO_ENTER, as the mirrored branch does | not executed | ColumnInfo.SameAutoEnterTypeAsWrittenFails | ColumnInfo.SameAutoEnterTypeReflexiveSymmetric |
