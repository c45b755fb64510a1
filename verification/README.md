# Clipboard manager core in Dafny

This project models the core of a clipboard manager, which is a store of clipboard items with a display order. Each item is either text or an image. The core has four parts:

- the item service (`clipboardService`). Items are kept as documents. The service lists them, adds text and images, edits text, pins and unpins, deletes, clears all, reorders, and reports metadata.
- the display comparator and the order rules. Pinned items come first. Within a partition items are sorted by ascending `order`, then by later update, then by later creation. A new item gets one below the least order other than `MAX_SAFE_INTEGER`. A pinned item gets one below the least pinned order. An unpinned item gets one above the greatest order other than `MAX_SAFE_INTEGER` among the unpinned items and the item itself.
- the view-model (`useClipboardItems`). It holds the list on screen and a selection cursor, where -1 means "none", and keeps both in step with the service.
- the settings service. It normalises a partial settings record, loads the latest settings document, and saves the normalised settings over the stored one.

Modules:

- `ClipboardTypes` (`clipboard_types.dfy`): the item sum type, the document as stored, and the two type guards.
- `ClipboardOrder` (`clipboard_order.dfy`): order and timestamp normalisation, the comparator, a stable insertion sort, and the insert/pin/unpin order computations. It also counts the metadata. All of it is pure.
- `ClipboardService` (`clipboard_service.dfy`): the class `ClipboardStore` over `docs: map<string, Doc>`, keyed by item id. It also holds the store-level characterisations its methods are proved against (`IsInsertOrder`, `IsPinOrder`, `IsUnpinOrder`, `AfterDelete`, `AfterClear`, `Reordered`).
- `ClipboardItemsView` (`clipboard_items.dfy`): the class `ClipboardItemsView` with `items` and `selectedIndex`, plus the pure cursor functions.
- `SettingsService` (`settings_service.dfy`): normalisation, and the class `SettingsRepository` over the settings collection.
- `JsStrings` (`js_strings.dfy`): `String.prototype.trim` and the string order used to find the latest settings document.
- `Wrappers` (`wrappers.dfy`): `Option`, `Result` and `Outcome`.

The following are parameters of the operations that need them:

- the current time (`now`);
- the fresh item id (`uuidv4`);
- the storage key the document store assigns to a new document (`_id`);
- whether a settings read or write fails.

The image codec is a pair of functions fixed when a `ClipboardStore` is built:

- `encode` is `blobToBase64`, and may fail;
- `decode` is the fetch in `dataUrlToBlob`, and may fail.

The document store lists its documents in an order the store chooses. Every listing is therefore chosen nondeterministically. Each result that does not depend on that order is proved for every listing.

## Where the code differs from its description

The model follows the code in each of these points.

- **The first item's order.** It is -1, not 0: `getMinOrder` returns 0 on an empty store and the new item gets `minOrder - 1` (see `ClipboardService.FirstInsertOrder`).
- **The insertion minimum.** It ranges over both partitions, not only the unpinned one.
- **Unpinning.** The unpin maximum includes the item being unpinned, since its filter keeps `!pinned || id === id`.
- **Reordering.** Each found item gets its position in the input, so inputs missing from the store leave gaps in the orders.
- **Blank text.** `addTextItem` does not reject blank text. Only the view-model's `addText` does, and it stores the trimmed text.

## Model

| member | source | states |
|---|---|---|
| ClipboardTypes.IsTextItem | src/types/clipboard.ts:24-26 | the guard holds exactly for the text variant |
| ClipboardTypes.IsImageItem | src/types/clipboard.ts:28-30 | the guard holds exactly for the image variant |
| ClipboardTypes.ExactlyOneItemType | src/types/clipboard.ts:1-30 | `isTextItem` holds iff the item is the text variant, `isImageItem` iff it is the image variant, and exactly one of them holds |
| ClipboardOrder.NormalizeOrder | src/services/clipboardService.ts:236-240 | a numeric order is kept as it is, and a non-numeric one becomes `MAX_SAFE_INTEGER`, so it sorts after every order below it |
| ClipboardOrder.NormalizeTimestamp | src/services/clipboardService.ts:263-266 | a numeric timestamp is kept as it is, and a non-numeric one becomes 0 |
| ClipboardOrder.CompareDocs | src/services/clipboardService.ts:242-261 | negative when `a` precedes `b` in the key order (pinned first, ascending normalised order, later update, later creation), positive when `b` precedes `a`, and zero on a tie of all four keys |
| ClipboardOrder.CompareDocsIsKeyOrder | src/services/clipboardService.ts:242-261 | the comparator is negative exactly when `a` precedes `b` in the key order (pinned first, ascending normalised order, later update, later creation), positive exactly when `b` precedes `a`, and zero exactly on a tie of all four keys |
| ClipboardOrder.PinnedBeforeUnpinned | src/services/clipboardService.ts:243-248 | a pinned document compares before an unpinned one whatever their orders, and the reverse comparison is positive |
| ClipboardOrder.NonNumericOrderSortsLast | src/services/clipboardService.ts:236-252 | within a partition, a document with a non-numeric order sorts after any document whose order is below `MAX_SAFE_INTEGER` |
| ClipboardOrder.DocLeqTotal | src/services/clipboardService.ts:242-261 | any two documents are comparable under the comparator |
| ClipboardOrder.DocLeqTransitive | src/services/clipboardService.ts:242-261 | the comparator's "not after" relation is transitive, so it is a valid sort comparator |
| ClipboardOrder.Insert | src/services/clipboardService.ts:10 | one step of the sort: the result holds the input plus the new element, as a multiset |
| ClipboardOrder.InsertSorted | src/services/clipboardService.ts:10 | inserting into a sorted sequence keeps it sorted |
| ClipboardOrder.SortDocs | src/services/clipboardService.ts:10 | the sort's result is a permutation of its input |
| ClipboardOrder.SortDocsSorted | src/services/clipboardService.ts:10 | the sort's result is in display order |
| ClipboardOrder.SortedPinnedFirst | src/services/clipboardService.ts:8-12 | in sorted output every pinned document has a smaller index than every unpinned one |
| ClipboardOrder.SelectedOrders | src/services/clipboardService.ts:100-111 | an order is selected iff some document satisfying the filter has it and, when `MAX_SAFE_INTEGER` is dropped, it is not that value |
| ClipboardOrder.GetMinOrder | src/services/clipboardService.ts:268-277 | the result is at most every order other than `MAX_SAFE_INTEGER` and equals one of them, or is 0 when every order is `MAX_SAFE_INTEGER` (or there are none) |
| ClipboardOrder.PinTargetOrder | src/services/clipboardService.ts:98-105 | the result is below every pinned order and is one less than some pinned order, or -1 when nothing is pinned |
| ClipboardOrder.UnpinTargetOrder | src/services/clipboardService.ts:106-114 | the result is above every order other than `MAX_SAFE_INTEGER` of the unpinned documents and the item itself, and is one more than one of them, or 1 when there is none |
| ClipboardOrder.CountText | src/services/clipboardService.ts:284 | the count is at most the number of documents, and it is zero exactly when no document is text |
| ClipboardOrder.CountTextLast | src/services/clipboardService.ts:284 | counting a listing one document longer adds one exactly when that document is text |
| ClipboardOrder.CountImage | src/services/clipboardService.ts:284-285 | text and image counts add up to the number of documents |
| ClipboardOrder.Latest | src/services/clipboardService.ts:286-287 | none exactly when no timestamp is truthy; otherwise the maximum of the truthy timestamps |
| ClipboardOrder.ComputeMetadata | src/services/clipboardService.ts:294-299 | total is the number of documents, `textCount + imageCount == total`, and the latest creation and update times are those maxima |
| ClipboardService.PermutationEnumerates | src/services/clipboardService.ts:9-10 | any permutation of a listing of the store lists every document exactly once |
| ClipboardService.Hydrate | src/services/clipboardService.ts:206-234 | text documents come back without a handle; an image gets a handle iff its data decodes, and the handle carries the document's media type and the decoded bytes; the document itself is unchanged |
| ClipboardService.HydrateAll | src/services/clipboardService.ts:11 | hydration keeps the documents and their order |
| ClipboardService.InsertOrderFromListing | src/services/clipboardService.ts:18-27 | `getMinOrder - 1` over any listing is the store's insertion order: below every order other than `MAX_SAFE_INTEGER` in either partition and one less than one of them, or -1 |
| ClipboardService.PinOrderFromListing | src/services/clipboardService.ts:97-105 | the pin rule over any listing gives the order one below the least pinned order, or -1 |
| ClipboardService.UnpinOrderFromListing | src/services/clipboardService.ts:106-114 | the unpin rule over any listing gives the order one above the greatest candidate order, or 1 |
| ClipboardService.FirstInsertOrder | src/services/clipboardService.ts:273-274 | the first item added to an empty store gets order -1 |
| ClipboardService.NewItemDisplayedFirst | src/services/clipboardService.ts:17-29 | a new item is displayed before every unpinned document with an order other than `MAX_SAFE_INTEGER` |
| ClipboardService.NextPinOrder | src/services/clipboardService.ts:97-114 | over any listing, pinning gives the pin order of the store and unpinning the unpin order of the store |
| ClipboardService.PinRewrite | src/services/clipboardService.ts:116-123 | the rewrite keeps the set of stored ids |
| ClipboardService.PinnedItemDisplayedFirst | src/services/clipboardService.ts:98-105 | after pinning, the item is displayed before every other document |
| ClipboardService.UnpinnedItemDisplayedAfter | src/services/clipboardService.ts:106-114 | after unpinning, the item is displayed after every pinned document and after every unpinned one with an order other than `MAX_SAFE_INTEGER` |
| ClipboardService.AfterDelete | src/services/clipboardService.ts:129-140 | the id is removed when its document exists and has a truthy storage key; otherwise the store is unchanged; no other document changes |
| ClipboardService.DeleteIdempotent | src/services/clipboardService.ts:129-140 | deleting the same id twice is deleting it once |
| ClipboardService.KeyedDocs | src/services/clipboardService.ts:147 | keeps exactly the documents with a truthy storage key |
| ClipboardService.KeyedDocsOfListing | src/services/clipboardService.ts:146-151 | over any listing, the count of keyed documents equals the number of keyed ids in the store |
| ClipboardService.AfterClear | src/services/clipboardService.ts:145-152 | exactly the documents with a storage key are removed, and the remaining ones are unchanged |
| ClipboardService.ClearIdempotent | src/services/clipboardService.ts:145-152 | after a clear no keyed document remains, a second clear changes nothing, and clearing an empty store removes nothing |
| ClipboardService.LastIndexOf | src/services/clipboardService.ts:169-181 | the last position of the id in the input, or -1 when it does not occur |
| ClipboardService.Reordered | src/services/clipboardService.ts:157-186 | the reordered store has the same ids, and every document keeps its id |
| ClipboardService.ReorderedNothing | src/services/clipboardService.ts:172-173 | when no input item is stored, reordering changes nothing |
| ClipboardService.ReorderedKeepsOtherFields | src/services/clipboardService.ts:174-178 | for any input, reordering changes only the order and the update time of each document; id, content, pin status, creation time and storage key are kept |
| ClipboardService.ReorderedFollowsInput | src/services/clipboardService.ts:169-181 | with distinct ids in the input, a found item gets its input position as order, and of two found items in the same partition the earlier one in the input is displayed first |
| ClipboardService.UpsertAll | src/services/clipboardService.ts:184 | after the batch write the store holds its old ids plus every written id |
| ClipboardService.UpsertAllUnwritten | src/services/clipboardService.ts:184 | a stored document whose id the batch does not write is unchanged |
| ClipboardService.UpsertAllLastWrite | src/services/clipboardService.ts:184 | a written document that no later one in the batch overrides is what the store holds under its id |
| ClipboardService.UpsertAllSnoc | src/services/clipboardService.ts:184 | writing one more document after a batch overwrites its entry |
| ClipboardService.ReorderedStep | src/services/clipboardService.ts:169-181 | one loop step of the reorder is one more write of the updated document |
| ClipboardService.ReorderedStepAt | src/services/clipboardService.ts:169-181 | in one loop step only the document with the item's id gets the item's position and `now`; every other document stays as in the previous step |
| ClipboardService.IndexById | src/services/clipboardService.ts:158-164 | the index holds every stored document with a non-empty id, under that id, and nothing else |
| ClipboardService.OrderUpdates | src/services/clipboardService.ts:166-181 | writing the collected documents in order yields exactly the reordered store |
| ClipboardService.ClipboardStore.Fetch | src/services/clipboardService.ts:9 | the listing holds every stored document exactly once |
| ClipboardService.ClipboardStore.GetAllItems | src/services/clipboardService.ts:8-12 | the result lists every document exactly once, in display order, each one hydrated |
| ClipboardService.ClipboardStore.AddTextItem | src/services/clipboardService.ts:17-33 | the new unpinned text item gets the insertion order and `now` for both timestamps, and it is the only document added |
| ClipboardService.ClipboardStore.AddImageItem | src/services/clipboardService.ts:38-62 | a failed encode stores nothing; otherwise the encoded image is stored with the insertion order and returned with the original handle |
| ClipboardService.ClipboardStore.UpdateTextItem | src/services/clipboardService.ts:67-85 | fails with not-found for an absent id; otherwise sets the text (for text documents) and the update time of that document only |
| ClipboardService.ClipboardStore.SetPinStatus | src/services/clipboardService.ts:90-124 | no-op for an absent id; otherwise only that document changes, getting the pin status, the pin or unpin order and `now` |
| ClipboardService.ClipboardStore.DeleteItem | src/services/clipboardService.ts:129-140 | the store becomes `AfterDelete` of the old store |
| ClipboardService.ClipboardStore.ClearAllItems | src/services/clipboardService.ts:145-152 | the store becomes `AfterClear` of the old store, and the count is the number of keyed documents removed |
| ClipboardService.ClipboardStore.UpdateItemsOrder | src/services/clipboardService.ts:157-186 | the store becomes `Reordered` of the old store, and it is unchanged when no input item is stored |
| ClipboardService.ClipboardStore.GetMetadata | src/services/clipboardService.ts:282-299 | total is the store size; `textCount` is the number of text documents and `imageCount` the number of image documents, which add up to the total; each latest time is none iff no document has a truthy one, else their maximum |
| ClipboardService.TextImagePartition | src/services/clipboardService.ts:284-285 | the text documents and the image documents of the store together are all of them |
| ClipboardService.CountTextOfListing | src/services/clipboardService.ts:282-284 | the text count over any listing is the number of text documents in the store |
| ClipboardService.LatestOverStore | src/services/clipboardService.ts:286-299 | the maximum over any listing is the maximum over the store |
| JsStrings.TrimStart | src/composables/useClipboardItems.ts:20-21 | the result is a suffix, everything dropped is white space, and it does not start with white space |
| JsStrings.TrimEnd | src/composables/useClipboardItems.ts:20-21 | the result is a prefix, everything dropped is white space, and it does not end with white space |
| JsStrings.Trim | src/composables/useClipboardItems.ts:20-21 | the input is blank text, then the result, then blank text, and the result neither starts nor ends with white space |
| JsStrings.SurroundedByTrimming | src/composables/useClipboardItems.ts:20-21 | cutting white space off the front and then off the back leaves the result between a blank lead and a blank trail |
| JsStrings.TrimEmptyIffBlank | src/composables/useClipboardItems.ts:20 | trimming yields the empty string iff the input is all white space |
| JsStrings.TrimIdempotent | src/composables/useClipboardItems.ts:21 | trimming twice is trimming once |
| JsStrings.StrLess | src/services/settingsService.ts:18 | the key order: a key never precedes an equal one, and of two keys where one is a prefix of the other the shorter comes first |
| JsStrings.StrLessIsFirstDifference | src/services/settingsService.ts:18 | `a` precedes `b` exactly when, at their first difference, `a` has the smaller character or has ended |
| JsStrings.FirstDifferenceTail | src/services/settingsService.ts:18 | when the first characters agree, the first difference of the strings is that of their tails, one further on |
| JsStrings.StrLessIrreflexive | src/services/settingsService.ts:18 | no key precedes itself |
| JsStrings.StrLessTransitive | src/services/settingsService.ts:18 | the key order is transitive |
| JsStrings.StrLessTotal | src/services/settingsService.ts:18 | any two distinct keys are ordered one way or the other |
| ClipboardItemsView.FindIndex | src/composables/useClipboardItems.ts:34 | the first position holding the id, or -1 when none does |
| ClipboardItemsView.NextSelection | src/composables/useClipboardItems.ts:58-65 | on an empty list nothing moves; from "none" the cursor goes to the first item; otherwise one step down, and a cursor on or past the last item stays where it is |
| ClipboardItemsView.PreviousSelection | src/composables/useClipboardItems.ts:67-74 | on an empty list nothing moves; from "none" the cursor goes to the first item; otherwise one step up, and a cursor at the first item or below "none" stays where it is |
| ClipboardItemsView.NextPreviousRoundTrip | src/composables/useClipboardItems.ts:58-74 | away from the ends, down then up and up then down return to the same position |
| ClipboardItemsView.ClampSelection | src/composables/useClipboardItems.ts:47-49 | after a removal a cursor at or past the new end moves to the last item (-1 when the list is empty), and one still in range is kept |
| ClipboardItemsView.EditedText | src/composables/useClipboardItems.ts:36-39 | the entry gets the new content and update time and nothing else changes |
| ClipboardItemsView.ClipboardItemsView.LoadItems | src/composables/useClipboardItems.ts:10-17 | the list becomes the store's listing in display order, hydrated |
| ClipboardItemsView.ClipboardItemsView.AddText | src/composables/useClipboardItems.ts:19-24 | blank input changes nothing; otherwise the trimmed text is stored with the insertion order, put first in the list and selected |
| ClipboardItemsView.ClipboardItemsView.AddImage | src/composables/useClipboardItems.ts:26-30 | a failed encode changes nothing; otherwise the new image is stored, put first and selected |
| ClipboardItemsView.ClipboardItemsView.UpdateText | src/composables/useClipboardItems.ts:32-40 | fails and changes nothing when the store lacks the id; otherwise the store is updated and the first list entry with the id is edited when it is text |
| ClipboardItemsView.ClipboardItemsView.DeleteItem | src/composables/useClipboardItems.ts:42-51 | the store deletes the id; the first list entry with it is removed and the cursor clamped; a cursor within the list stays within it |
| ClipboardItemsView.ClipboardItemsView.ReorderItems | src/composables/useClipboardItems.ts:53-56 | the list becomes the input and the store becomes `Reordered` by it |
| ClipboardItemsView.ClipboardItemsView.SelectNext | src/composables/useClipboardItems.ts:58-65 | the cursor becomes `NextSelection` of the old cursor |
| ClipboardItemsView.ClipboardItemsView.SelectPrevious | src/composables/useClipboardItems.ts:67-74 | the cursor becomes `PreviousSelection` of the old cursor |
| ClipboardItemsView.ClipboardItemsView.SelectIndex | src/composables/useClipboardItems.ts:76-80 | an index inside the list is selected; any other leaves the cursor |
| ClipboardItemsView.ClipboardItemsView.ClearSelection | src/composables/useClipboardItems.ts:82-84 | no item is selected |
| SettingsService.CopyModeName | src/services/settingsService.ts:49 | the name is "double-tap" exactly for the double-tap mode |
| SettingsService.NormalizeSettings | src/services/settingsService.ts:46-51 | `enablePin` is kept iff it is a boolean, else `true`; `copyMode` is double-tap iff the input is exactly "double-tap" |
| SettingsService.ToRecord | src/services/settingsService.ts:28-35 | the settings as a record with exactly the two fields |
| SettingsService.NormalizeToRecord | src/services/settingsService.ts:46-51 | normalising a settings record gives the settings back |
| SettingsService.NormalizeIdempotent | src/services/settingsService.ts:46-51 | normalisation is idempotent |
| SettingsService.NormalizeEmpty | src/services/settingsService.ts:9-12 | an empty record normalises to the defaults `{enablePin: true, copyMode: 'single-tap'}` |
| SettingsService.Key | src/services/settingsService.ts:18 | a string `_id` is the key |
| SettingsService.LatestUnique | src/services/settingsService.ts:17-19 | at most one settings document is the latest |
| SettingsService.LoadsAsUnique | src/services/settingsService.ts:14-25 | the loaded settings are determined by the collection |
| SettingsService.LatestIndex | src/services/settingsService.ts:18 | the position the descending sort by key puts first |
| SettingsService.LatestIndexIsMax | src/services/settingsService.ts:18 | no document has a greater key than the chosen one, and every earlier one has a smaller key |
| SettingsService.MaxExtendAbove | src/services/settingsService.ts:18 | a record whose key is above the maximum becomes the new maximum |
| SettingsService.MaxExtendBelow | src/services/settingsService.ts:18 | a record whose key is not above the maximum leaves the maximum where it is |
| SettingsService.AboveMaxIsMax | src/services/settingsService.ts:18 | a key above the maximum key is above every key, and no key is above it |
| SettingsService.EmptyListing | src/services/settingsService.ts:16-17 | an empty listing means there is no settings document |
| SettingsService.LatestOfListing | src/services/settingsService.ts:16-19 | the listing's chosen document is the latest settings document of the collection |
| SettingsService.SavedRecord | src/services/settingsService.ts:32-38 | the written record has `enablePin` and `copyMode` of the normalised partial and the fixed settings `id`, keeps every other field of the base, and normalises to the normalised partial |
| SettingsService.SavePreservesKeys | src/services/settingsService.ts:32-38 | saving keeps every document filed under its own key |
| SettingsService.NormalizeIgnoresOtherFields | src/services/settingsService.ts:46-51 | normalisation reads only `enablePin` and `copyMode` |
| SettingsService.LoadOnlySettingsDoc | src/services/settingsService.ts:14-25 | a collection with exactly one settings document loads as that document, normalised |
| SettingsService.SaveThenLoad | src/services/settingsService.ts:14-39 | with at most one settings document, a load after a save returns the normalised partial, and one settings document remains |
| SettingsService.SettingsRepository.FindSettings | src/services/settingsService.ts:16 | the listing holds every settings document exactly once |
| SettingsService.SettingsRepository.LoadSettings | src/services/settingsService.ts:14-25 | a failed read gives the defaults; otherwise the defaults without a settings document, else the latest one normalised |
| SettingsService.SettingsRepository.SaveSettings | src/services/settingsService.ts:27-44 | a failed write changes nothing; otherwise a new settings document is created, or the first listed one is rewritten with the normalised partial |

## Left out

- I/O, concurrency and the asynchronous steps are not modelled: each operation runs as one atomic step on the store. Logging (`console.warn`/`console.error`) is not modelled either.
- Store failures in the item service are not modelled, except for a failed image encode. The settings service models a failed read and a failed write as parameters.
- `estimatedBytes` in `getMetadata` is left out, because it depends on `JSON.stringify` and `TextEncoder`.
- Numbers are integers, so floating point, `NaN` and `Infinity` are not modelled. A non-numeric order or timestamp is one marker value. It normalises to `MAX_SAFE_INTEGER` (orders) or 0 (timestamps). The precision limit of JavaScript numbers beyond `MAX_SAFE_INTEGER` is not modelled. A non-numeric string timestamp is truthy in JavaScript, so `filter(Boolean)` in `getMetadata` keeps it and `Math.max` then gives `NaN`; the model treats every non-numeric timestamp as absent and does not produce that `NaN`.
- The base64 codec (`blobToBase64`, `dataUrlToBlob`) is a pair of opaque functions that may fail. No round trip between them is claimed.
- A repeated `Date.now()` within one operation is one `now` parameter. This covers the service call and the view-model's own update time in `updateText`. In the source they can differ by a few milliseconds.
- `updateTextItem` on an image document also stores a `content` field. The model's image payload has no such field, so this write is dropped and only the update time changes. In the source only `estimatedBytes`, which is left out, reads that field.
- `upsert`'s base argument is not modelled. An upsert replaces the document filed under the same id or key.
- ClipboardService.UpsertAll: the batch `upsert(docsToSave, bases)` in `updateItemsOrder` is assumed to write the documents one after the other. The store's batch semantics are not part of this model. Under this assumption, an id repeated in the input of `updateItemsOrder` gets the position of its last occurrence.
- `isLoading`, the `onMounted` hook, the browser clipboard access in `useClipboard`, the keyboard wiring in `useKeyboardShortcuts` and the database set-up in `db.ts` are not part of this model.
- `null` or missing entries in the input of `updateItemsOrder` are not modelled; every entry is an item.
- Documents are typed text or image only, so `textCount + imageCount == total` holds in the model. It need not hold for documents of another type written by other code.
- `localeCompare` is modelled as comparison by code points (Dafny characters are Unicode scalar values). This differs from UTF-16 code-unit order for characters outside the Basic Multilingual Plane. Locale collation is not modelled.
- `trim` uses the fixed set of white-space and line-terminator code points in `JsStrings.IsWhitespace`.
- Settings documents with a non-string `_id` are not modelled. Every document carries its store key as a string `_id`.
- ClipboardOrder.SortDocs: the contract states permutation and sortedness, not stability. The definition is a stable insertion sort, like the engine's sort.
- ClipboardItemsView.ClipboardItemsView.Valid: does not tie the on-screen list to the store. The source keeps them in step only through the operations, and `reorderItems`/`loadItems` may leave the cursor beyond the end of the list.
- SettingsService.SaveThenLoad: assumes at most one settings document. With two or more, `saveSettings` rewrites whichever one the store lists first, while `loadSettings` reads the one with the greatest key, so a save need not be seen by the next load. Saving never creates a second settings document, so a collection written only through this service keeps at most one.
