# LazyLabel annotation core in Dafny

This project models the state engine behind LazyLabel, a desktop tool for annotating images and image sequences with segmentation masks. It covers the segment store and its class bookkeeping, undo and redo, the drawing state of polygon, bounding-box and erase modes, cropping, and the per-segment display caches. It also covers mask and class exports, the embedding and image preload caches, and the file list model and its sort proxy. The multi-view coordinator and mode, SAM model selection and multi-view initialisation are modelled too. So are the single-view view model, the segment table, and the sequence side: the sequence view mode, propagation of masks across frames, and the timeline widget.

There is one Dafny module per source file, named after it (`ordered_dict.dfy` holds `OrderedDicts`, the insertion-ordered dictionary that the LRU caches are built on). Wrappers, Seqs, Text and Geometry are small shared helper modules.

- Modelling choices:
  - Masks are sets of pixel coordinates.
  - Image operations the program delegates to OpenCV and NumPy become function-typed parameters with stated preconditions. These are polygon filling, connected-component labelling and resizing.
  - File contents are distinguished by a key function standing for the md5 digest.
- Pure code becomes datatypes, functions and lemmas. Objects whose fields the program updates become classes with `modifies` and `reads` frames.
- Loops become methods with invariants, proved against specification functions whose properties are stated as lemmas.
- Qt signals appear only where the program promises something about when they fire. Where they do, each emission is appended to a ghost event log.
- Integers are unbounded. Python negative indexing is written out where the program relies on it (`PyIndex`).

## Model

| member | source | states |
|---|---|---|
| Crop.NormalizeInImage | src/lazylabel/ui/managers/crop_manager.py:122-140 | For an image of at least one pixel, the clamped and ordered crop satisfies 0 <= x1 <= x2 < w and 0 <= y1 <= y2 < h. |
| Crop.NormalizeKeepsInImage | src/lazylabel/ui/managers/crop_manager.py:125-140 | A crop that is already ordered and inside the image comes back from normalisation unchanged. |
| Crop.NormalizeIdempotent | src/lazylabel/ui/managers/crop_manager.py:125-140 | Normalising a normalised crop changes nothing. |
| Crop.NormalizeCornerOrder | src/lazylabel/ui/managers/crop_manager.py:132-135 | Swapping the two x coordinates, or the two y coordinates, of the input gives the same crop. |
| Crop.BandsPresent | src/lazylabel/ui/managers/crop_manager.py:187-218 | For a normalised crop the bottom and right bands are always drawn, because the clamp leaves y2 < h and x2 < w. The top band is drawn exactly when y1 > 0 and the left band exactly when x1 > 0, so there are 2 to 4 bands. |
| Crop.TilesPixel | src/lazylabel/ui/managers/crop_manager.py:187-218 | The bands and the kept rectangle [x1,x2)x[y1,y2) together cover each pixel of the w by h image exactly once, and cover no pixel outside it. |
| Crop.TilesCover | src/lazylabel/ui/managers/crop_manager.py:187-218 | The tiling of Crop.TilesPixel, stated for all pixels at once. |
| Crop.TilesArea | src/lazylabel/ui/managers/crop_manager.py:187-218 | The band areas plus the kept area equal w*h. |
| Crop.LastColumnAndRowDarkened | src/lazylabel/ui/managers/crop_manager.py:125-128 | Because the clamp goes to w-1 and h-1 and the bands start at x2 and y2, the last pixel column and the last pixel row are never kept, and each last-column pixel lies in exactly one band. |
| Crop.AppendBands | src/lazylabel/ui/managers/crop_manager.py:187-218 | Appending one rectangle per drawn band, in the source's order, gives exactly the specified band list. |
| Crop.CropManager.ApplySingleViewCropCoordinates | src/lazylabel/ui/managers/crop_manager.py:106-148 | With no image path, or a pixmap that fails to load, this only reports "No image loaded" or "Invalid image" and changes nothing. Otherwise the normalised crop becomes current, is remembered under (w, h), and both the overlays and the hover overlays become the bands of that crop. |
| Crop.CropManager.ApplyCropToImage | src/lazylabel/ui/managers/crop_manager.py:150-159 | With a crop and an image path, the overlays and the hover overlays are rebuilt for the pixmap. Otherwise nothing changes. |
| Crop.CropManager.AddCropVisualOverlays | src/lazylabel/ui/managers/crop_manager.py:161-222 | With a crop, the overlay list is replaced by the band list for the pixmap. Without a crop it is untouched. |
| Crop.CropManager.AddCropHoverOverlay | src/lazylabel/ui/managers/crop_manager.py:244-299 | With a crop, hovering ends and the hover list becomes the bands, or empty without an image path. Without a crop nothing changes. |
| Crop.CropManager.OnCropHoverEnter | src/lazylabel/ui/managers/crop_manager.py:322-328 | With a crop, hovering starts and, when there is an image path, the highlight items are rebuilt. Without a crop nothing changes. |
| Crop.CropManager.OnCropHoverLeave | src/lazylabel/ui/managers/crop_manager.py:330-333 | Hovering ends and the highlight items are removed. |
| Crop.CropManager.ApplyCropHoverEffect | src/lazylabel/ui/managers/crop_manager.py:335-394 | With a crop and an image path, the highlight items are rebuilt. Otherwise the old ones stay. |
| Crop.CropManager.RemoveCropVisualOverlays | src/lazylabel/ui/managers/crop_manager.py:224-229 | The overlay list is empty afterwards. |
| Crop.CropManager.RemoveCropHoverOverlay | src/lazylabel/ui/managers/crop_manager.py:314-320 | The hover list is empty and hovering has ended. |
| Crop.CropManager.RemoveCropHoverEffect | src/lazylabel/ui/managers/crop_manager.py:396-403 | The highlight items are gone. |
| Crop.CropManager.RemoveCropVisual | src/lazylabel/ui/managers/crop_manager.py:231-242 | The drawn rectangle, the overlays, the hover overlays and the highlight are all gone, and hovering has ended. |
| Crop.CropManager.GetCropForImageSize | src/lazylabel/ui/managers/crop_manager.py:405-410 | Returns Some exactly when a crop is remembered for (width, height), and then returns that crop. |
| Crop.CropManager.ResetState | src/lazylabel/ui/managers/crop_manager.py:412-431 | Crop mode, the drawn rectangle, its start, the current crop and every overlay collection (single and multi view) are cleared. The crops remembered per image size survive. |
| Crop.Clamp | src/lazylabel/ui/managers/crop_manager.py:125-128 | `max(lo, min(v, hi))`: the clamp of each typed coordinate, whose bounds feed Crop.NormalizeInImage and Crop.LastColumnAndRowDarkened |
| Crop.Normalize | src/lazylabel/ui/managers/crop_manager.py:122-140 | Each corner is clamped into [0, w-1] by [0, h-1], and each axis is then ordered, with the smaller clamped value first. |
| Crop.Bands | src/lazylabel/ui/managers/crop_manager.py:187-218 | The top, bottom, left and right darkening bands, each present only when its guard holds. Crop.TilesCover and Crop.TilesArea prove that they tile the image together with the kept rectangle. |
| Crop.CropManager.constructor | src/lazylabel/ui/managers/crop_manager.py:22-40 | The manager starts outside crop mode, with no drawn rectangle, no start point, no remembered or current crop, no overlays, no hover items and empty multi-view lists. |
| Crop.CropManager.OverlaysFor | src/lazylabel/ui/managers/crop_manager.py:161-222 | The bands the overlay methods draw for the current crop over the image size: none without a crop or without a loaded image. |
| DrawingState.RemoveItems | src/lazylabel/ui/managers/drawing_state_manager.py:92-100 | The loop that takes items off the scene one by one leaves the scene showing exactly what it showed before, minus every listed item. |
| DrawingState.RemoveItem | src/lazylabel/ui/managers/drawing_state_manager.py:136-146 | An optional item is taken off the scene when the scene shows it. Nothing else on the scene changes. |
| DrawingState.DrawingStateManager.constructor | src/lazylabel/ui/managers/drawing_state_manager.py:33-65 | Every point, polygon, bbox, AI, preview and drag value starts empty or None, and the manager holds no drawing state. |
| DrawingState.DrawingStateManager.AddPointItem | src/lazylabel/ui/managers/drawing_state_manager.py:80-82 | The item is appended to the point items. |
| DrawingState.DrawingStateManager.AddPositivePoint | src/lazylabel/ui/managers/drawing_state_manager.py:84-86 | The point is appended to the positive points, so the manager has points afterwards. |
| DrawingState.DrawingStateManager.AddNegativePoint | src/lazylabel/ui/managers/drawing_state_manager.py:88-90 | The point is appended to the negative points, so the manager has points afterwards. |
| DrawingState.DrawingStateManager.ClearPoints | src/lazylabel/ui/managers/drawing_state_manager.py:92-100 | All three point lists are empty. When there is a scene, exactly the old point items have left it. |
| DrawingState.DrawingStateManager.HasPoints | src/lazylabel/ui/managers/drawing_state_manager.py:102-108 | True exactly when a positive or a negative point is recorded. Point items alone do not count. |
| DrawingState.DrawingStateManager.AddPolygonPoint | src/lazylabel/ui/managers/drawing_state_manager.py:128-130 | The vertex is appended. The polygon can be completed afterwards exactly when it already had two or more vertices. |
| DrawingState.DrawingStateManager.AddPolygonPreviewItem | src/lazylabel/ui/managers/drawing_state_manager.py:132-134 | The item is appended to the polygon preview items. |
| DrawingState.DrawingStateManager.ClearPolygon | src/lazylabel/ui/managers/drawing_state_manager.py:136-146 | Vertices, preview items and the rubber-band line are dropped. Exactly the old preview items and line have left the scene, and the polygon can no longer be completed. |
| DrawingState.DrawingStateManager.HasPolygonPoints | src/lazylabel/ui/managers/drawing_state_manager.py:148-150 | True exactly when some polygon vertex is recorded. |
| DrawingState.DrawingStateManager.CanCompletePolygon | src/lazylabel/ui/managers/drawing_state_manager.py:152-158 | True exactly when there are at least three vertices, which implies there are polygon points. |
| DrawingState.DrawingStateManager.SetRubberBandRect | src/lazylabel/ui/managers/drawing_state_manager.py:164-168 | The rubber-band rectangle becomes the given item. |
| DrawingState.DrawingStateManager.SetDragStartPos | src/lazylabel/ui/managers/drawing_state_manager.py:174-176 | The drag start position becomes the given point. |
| DrawingState.DrawingStateManager.ClearBbox | src/lazylabel/ui/managers/drawing_state_manager.py:178-187 | The rectangle and start position are dropped, and the old rectangle has left the scene. |
| DrawingState.DrawingStateManager.StartAiClick | src/lazylabel/ui/managers/drawing_state_manager.py:193-207 | The AI click start and time are recorded, and an AI drag is in progress. |
| DrawingState.DrawingStateManager.SetAiRubberBandRect | src/lazylabel/ui/managers/drawing_state_manager.py:213-215 | The AI rubber-band rectangle becomes the given item. |
| DrawingState.DrawingStateManager.ClearAiState | src/lazylabel/ui/managers/drawing_state_manager.py:217-223 | The start position, time and rectangle are reset, the old rectangle has left the scene, and no AI drag is in progress. |
| DrawingState.DrawingStateManager.IsAiDragging | src/lazylabel/ui/managers/drawing_state_manager.py:225-231 | True exactly when an AI click start position is recorded. |
| DrawingState.DrawingStateManager.SetPreview | src/lazylabel/ui/managers/drawing_state_manager.py:237-259 | The preview mask item, the bbox preview mask and the bbox preview rectangle become the given values. |
| DrawingState.DrawingStateManager.ClearPreview | src/lazylabel/ui/managers/drawing_state_manager.py:261-271 | All three preview values are dropped, and the old preview mask item has left the scene. |
| DrawingState.DrawingStateManager.StartPolygonDrag | src/lazylabel/ui/managers/drawing_state_manager.py:286-290 | The drag flag is set and the start position recorded. The manager keeps a reference to the caller's dictionary, not a copy. |
| DrawingState.DrawingStateManager.EndPolygonDrag | src/lazylabel/ui/managers/drawing_state_manager.py:292-297 | The drag flag is cleared and the kept dictionary object is emptied in place. |
| DrawingState.DrawingStateManager.ClearAll | src/lazylabel/ui/managers/drawing_state_manager.py:299-306 | Every clear runs and any polygon drag ends. The scene loses exactly this manager's items, and the manager then holds no drawing state. |
| DrawingState.DrawingStateManager.Cleared | src/lazylabel/ui/managers/drawing_state_manager.py:299-306 | The scene contents that remain after clear_all: a shown item stays exactly when it is none of the manager's point items, polygon previews, rubber-band line or rectangle, AI rectangle or preview mask. |
| DrawingState.DrawingStateManager.HasAnyDrawingState | src/lazylabel/ui/managers/drawing_state_manager.py:308-316 | True exactly when there are points, polygon vertices, a rubber-band rectangle, an AI click start or a preview mask. |
| DrawingState.DragEmptiesCallersDict | src/lazylabel/ui/managers/drawing_state_manager.py:286-297 | Starting a drag with a caller's dictionary and ending it empties the caller's own dictionary, because of the aliasing. |
| DrawingState.Handles | src/lazylabel/ui/managers/drawing_state_manager.py:95-97 | The graphics items of a list, as a set of handles. |
| DrawingState.Handle | src/lazylabel/ui/managers/drawing_state_manager.py:141-142 | An optional item as a set of handles: empty when there is none. |
| DrawingState.Without | src/lazylabel/ui/managers/drawing_state_manager.py:94-97 | The scene after the removal loop: none of the items is shown, every other item still is, and nothing is added. |
| OrderedDicts.Store | src/lazylabel/ui/managers/embedding_cache_manager.py:68 | A store under key k maps k to the new value. A new key goes last in the order, and a key already present keeps its place. |
| OrderedDicts.MoveToEnd | src/lazylabel/ui/managers/embedding_cache_manager.py:53-54 | The key becomes the most recent one. The other keys keep their relative order and no value changes. |
| OrderedDicts.PopOldest | src/lazylabel/ui/managers/image_preload_manager.py:126-127 | Popping the first item drops the least recent key and its value and keeps the rest in order. |
| OrderedDicts.Delete | src/lazylabel/ui/managers/embedding_cache_manager.py:87-88 | Deleting a present key drops that key from the order and from the values, and nothing else changes. |
| OrderedDicts.NewestKeys | src/lazylabel/ui/managers/embedding_cache_manager.py:70-72 | Keeping the n newest entries leaves exactly the last min(n, size) keys, in their order. |
| OrderedDicts.NewestValues | src/lazylabel/ui/managers/embedding_cache_manager.py:70-72 | Every entry that survives eviction keeps its value. |
| OrderedDicts.PopWhileOver | src/lazylabel/ui/managers/embedding_cache_manager.py:71-72 | The loop that pops the oldest entry while the size exceeds the limit yields the newest-limit entries. |
| OrderedDicts.PopWhileFull | src/lazylabel/ui/managers/image_preload_manager.py:126-127 | The loop that pops while the size is at least the limit yields the newest limit-1 entries. The limit must be positive: with a limit of 0 the loop would pop from an empty dict. |
| OrderedDicts.StoreExistingKeepsOrder | src/lazylabel/ui/managers/embedding_cache_manager.py:68-72 | Storing under a key already present in a cache within its bound changes neither the key order nor any other value. |
| OrderedDicts.StoreThenNewest | src/lazylabel/ui/managers/embedding_cache_manager.py:68-72 | Storing into a cache within its bound, then evicting, keeps the stored key with its new value and keeps the size within the bound. A new key is the most recent. |
| EmbeddingCache.EmbeddingCacheManager.constructor | src/lazylabel/ui/managers/embedding_cache_manager.py:18-25 | The cache starts empty with the given maximum size. |
| EmbeddingCache.EmbeddingCacheManager.Get | src/lazylabel/ui/managers/embedding_cache_manager.py:40-56 | A miss returns None and changes nothing. A hit returns the stored value, and makes the key the most recent exactly when update_lru is set. |
| EmbeddingCache.EmbeddingCacheManager.Put | src/lazylabel/ui/managers/embedding_cache_manager.py:58-72 | None changes nothing. Otherwise the cache becomes the newest max_size entries after the store. With a positive bound the key is present with the new value, and re-storing a present key keeps the recency order. |
| EmbeddingCache.EmbeddingCacheManager.Clear | src/lazylabel/ui/managers/embedding_cache_manager.py:74-76 | The cache is empty: its length is 0 and no key is contained. |
| EmbeddingCache.EmbeddingCacheManager.Invalidate | src/lazylabel/ui/managers/embedding_cache_manager.py:78-90 | Returns true exactly when the key was present, and then removes only that key. |
| EmbeddingCache.EmbeddingCacheManager.Contains | src/lazylabel/ui/managers/embedding_cache_manager.py:32-34 | `key in cache`: the key has a cached embedding. |
| EmbeddingCache.EmbeddingCacheManager.Len | src/lazylabel/ui/managers/embedding_cache_manager.py:36-38 | `len(cache)`: the number of cached keys. EmbeddingCache.EmbeddingCacheManager.Clear proves it 0 after a clear. |
| FileModel.KeptCount | src/lazylabel/utils/fast_file_manager.py:338-341 | below any row every position is either kept or moved |
| FileModel.AdjustedDestBounds | src/lazylabel/utils/fast_file_manager.py:338-342 | the adjusted drop row counts exactly the staying rows above the drop row and lies inside the remaining list |
| FileModel.KeepIdxSplit | src/lazylabel/utils/fast_file_manager.py:335-341 | splitting positions between two sets splits the rows between the two kept lists |
| FileModel.MovedIsKept | src/lazylabel/utils/fast_file_manager.py:335 | the moved rows are the rows kept when every other position is dropped |
| FileModel.MovedLength | src/lazylabel/utils/fast_file_manager.py:335-341 | as many rows move as were named, the rest stay, and together they are the original rows |
| FileModel.MoveRowsPermutes | src/lazylabel/utils/fast_file_manager.py:324-345 | moving rows keeps the list's length and multiset of rows |
| FileModel.MoveRowsLayout | src/lazylabel/utils/fast_file_manager.py:335-342 | the moved rows sit together at the adjusted drop row in ascending original order, the rows above the drop row stay above them and all other rows keep their order |
| FileModel.MovedAt | src/lazylabel/utils/fast_file_manager.py:335 | the moved rows are read off at the sorted source rows |
| FileModel.PathIndexSpec | src/lazylabel/utils/fast_file_manager.py:347-349 | the path index knows exactly the listed paths and sends each to the last row holding it |
| FileModel.PathIndexExact | src/lazylabel/utils/fast_file_manager.py:347-349 | with distinct paths every row's path maps back to that row |
| FileModel.CountTrueCard | src/lazylabel/utils/fast_file_manager.py:351-352 | the column count is the number of visible columns, at most the number of columns |
| FileModel.VisibleIndexAgrees | src/lazylabel/utils/fast_file_manager.py:354-366 | from column 0 up the corrected conversion agrees with the code as written |
| FileModel.NegativeColumnAsWritten | src/lazylabel/utils/fast_file_manager.py:354-366 | as written, column -1 in the default layout is reported as visible column 0, while the corrected conversion gives -1 |
| FileModel.LogicalIndexSpec | src/lazylabel/utils/fast_file_manager.py:368-376 | -1 exactly for a visible index outside the visible count, otherwise a visible column with that many visible columns before it |
| FileModel.ColumnIndexRoundTrip | src/lazylabel/utils/fast_file_manager.py:354-376 | the two conversions are inverse on visible columns and in-range visible indices, and anything else gives -1 both ways |
| FileModel.MoveItemSpec | src/lazylabel/utils/fast_file_manager.py:403-406 | the moved item lands at the target, the items between shift by one toward the gap and the rest stay, so lists moved alike stay aligned |
| FileModel.MoveItemBack | src/lazylabel/utils/fast_file_manager.py:403-406 | moving back undoes a move |
| FileModel.SpanSpec | src/lazylabel/utils/fast_file_manager.py:661 | the span holds exactly the rows between its ends |
| FileModel.SpanBounds | src/lazylabel/utils/fast_file_manager.py:718-720 | the least and greatest rows of a non-empty span are its ends |
| FileModel.HighlightSpan | src/lazylabel/utils/fast_file_manager.py:645-661 | the span between the two rows, whichever comes first, with its least and greatest rows |
| FileModel.FastFileModel.constructor | src/lazylabel/utils/fast_file_manager.py:279-296 | no files, the five default columns all visible, nothing highlighted |
| FileModel.FastFileModel.GetFileInfo | src/lazylabel/utils/fast_file_manager.py:538-542 | the row's file exactly for a row inside the list |
| FileModel.FastFileModel.GetFileIndex | src/lazylabel/utils/fast_file_manager.py:593-595 | a row holding the path, -1 exactly when no row holds it |
| FileModel.FastFileModel.MoveFileRows | src/lazylabel/utils/fast_file_manager.py:324-349 | the files become the moved list and the path index is rebuilt over it |
| FileModel.FastFileModel.OnFilesFound | src/lazylabel/utils/fast_file_manager.py:513-525 | the batch is appended and each path is indexed at its new row |
| FileModel.FastFileModel.GetVisibleColumnIndex | src/lazylabel/utils/fast_file_manager.py:354-366 | the corrected visible index of the column, -1 for a hidden, out-of-range or negative column |
| FileModel.FastFileModel.GetLogicalColumnIndex | src/lazylabel/utils/fast_file_manager.py:368-376 | the logical column of the visible index, -1 when there is none |
| FileModel.FastFileModel.SetColumnVisible | src/lazylabel/utils/fast_file_manager.py:378-386 | an in-range column gets the visibility and any other index is ignored |
| FileModel.FastFileModel.IsColumnVisible | src/lazylabel/utils/fast_file_manager.py:388-392 | true exactly for an in-range visible column |
| FileModel.FastFileModel.MoveColumn | src/lazylabel/utils/fast_file_manager.py:394-407 | name and visibility move together; invalid or equal indices change nothing |
| FileModel.FastFileModel.SetHighlightedRange | src/lazylabel/utils/fast_file_manager.py:637-678 | the span between the rows is highlighted, the ends are kept as given and the reported range is (min, max) |
| FileModel.FastFileModel.ClearHighlightedRange | src/lazylabel/utils/fast_file_manager.py:680-710 | nothing is highlighted, the ends are gone and no range is reported |
| FileModel.FastFileModel.GetHighlightedRange | src/lazylabel/utils/fast_file_manager.py:712-720 | none exactly without highlighted rows, else their least and greatest |
| FileModel.MoveRows | src/lazylabel/utils/fast_file_manager.py:324-345 | The rows that stay, cut at the drop row moved up by the number of moved rows above it, with the moved rows spliced in between in sorted order. FileModel.MoveRowsPermutes and FileModel.MoveRowsLayout give its properties. |
| FileModel.PathIndex | src/lazylabel/utils/fast_file_manager.py:347-349 | Maps every listed path to a row: a later row with the same path overwrites an earlier one. FileModel.PathIndexSpec and FileModel.PathIndexExact give its properties. |
| FileModel.CountTrue | src/lazylabel/utils/fast_file_manager.py:351-352 | The number of visible columns, that is `sum(visible_columns)`. FileModel.CountTrueCard checks it against a set count. |
| FileModel.VisibleIndex | src/lazylabel/utils/fast_file_manager.py:354-366 | The corrected conversion: -1 for a hidden column or one outside the list, otherwise the number of visible columns before it. FileModel.ColumnIndexRoundTrip proves it inverse to FileModel.LogicalIndex. |
| FileModel.VisibleIndexAsWritten | src/lazylabel/utils/fast_file_manager.py:354-366 | The conversion as written. Only `c >= len` is rejected first, so a negative column is read from the end of the list, and None stands for the IndexError below `-len`. FileModel.NegativeColumnAsWritten shows the difference. |
| FileModel.LogicalIndex | src/lazylabel/utils/fast_file_manager.py:368-376 | The position of the visible column numbered v, or -1. FileModel.LogicalIndexSpec characterises it. |
| FileModel.MoveItem | src/lazylabel/utils/fast_file_manager.py:403-406 | `s.insert(to, s.pop(from))`. FileModel.MoveItemSpec and FileModel.MoveItemBack give its properties. |
| FileModel.SpanBetween | src/lazylabel/utils/fast_file_manager.py:645-661 | The rows from the lower of the two given rows to the higher. FileModel.SpanSpec and FileModel.SpanBounds give its properties. |
| FileModel.FastFileModel.RowCount | src/lazylabel/utils/fast_file_manager.py:298-299 | `rowCount`: the number of files. |
| FileModel.FastFileModel.ColumnCount | src/lazylabel/utils/fast_file_manager.py:351-352 | `columnCount`: the number of visible columns, by FileModel.CountTrue. |
| FileModel.LogicalIndexFirst | src/lazylabel/utils/fast_file_manager.py:368-376 | Once a prefix of the visibility list finds the visible column numbered v, the whole list finds the same column. This is the early return of the counting loop. |
| FileNavigation.FileSortProxyModel.constructor | src/lazylabel/utils/fast_file_manager.py:726-729 | no custom order and no hidden rows |
| FileNavigation.FileSortProxyModel.SetCustomOrder | src/lazylabel/utils/fast_file_manager.py:731-733 | the custom-order flag is set as given |
| FileNavigation.FileSortProxyModel.HideSourceRows | src/lazylabel/utils/fast_file_manager.py:738-741 | the rows join those already hidden |
| FileNavigation.FileSortProxyModel.ShowAllRows | src/lazylabel/utils/fast_file_manager.py:743-747 | no row is hidden |
| FileNavigation.FileSortProxyModel.IsCustomOrder | src/lazylabel/utils/fast_file_manager.py:735-736 | the custom-order flag |
| FileNavigation.FileSortProxyModel.HasHiddenRows | src/lazylabel/utils/fast_file_manager.py:749-753 | some row is hidden exactly when the hidden count is positive |
| FileNavigation.FileSortProxyModel.FilterAcceptsRow | src/lazylabel/utils/fast_file_manager.py:755-758 | a hidden row is rejected and any other is left to the base filter |
| FileNavigation.IndexOf | src/lazylabel/utils/fast_file_manager.py:1253-1256 | -1 exactly when the source row is not shown, else the first proxy row showing it |
| FileNavigation.IndexOfDistinct | src/lazylabel/utils/fast_file_manager.py:1253-1256 | in a view without repeats a row's position is where it sits |
| FileNavigation.ProxyRowForSpec | src/lazylabel/utils/fast_file_manager.py:1245-1256 | a proxy row found for a path shows that path |
| FileNavigation.ProxyRowOfFileAt | src/lazylabel/utils/fast_file_manager.py:1245-1256 | with distinct paths the path shown at a proxy row leads back to that row |
| FileNavigation.GetFilePairAtIndex | src/lazylabel/utils/fast_file_manager.py:1396-1427 | no file outside the view, and a second file only when the next row exists |
| FileNavigation.GetNextFilePair | src/lazylabel/utils/fast_file_manager.py:1315-1353 | nothing for an unknown path, and a second file only past a first one or inside the view |
| FileNavigation.GetPreviousFilePair | src/lazylabel/utils/fast_file_manager.py:1355-1394 | nothing for an unknown path or when fewer than two rows precede it |
| FileNavigation.PairsAreShiftedWindows | src/lazylabel/utils/fast_file_manager.py:1315-1427 | the next pair is the pair two rows after the current one and the previous pair the one two rows before it |
| FileNavigation.NextThenPrevious | src/lazylabel/utils/fast_file_manager.py:1315-1394 | going one pair forward and one pair back returns to the current path and the row after it |
| FileNavigation.FilesBetweenSpec | src/lazylabel/utils/fast_file_manager.py:1836-1841 | every row of a span inside the view contributes its path, in order |
| FileNavigation.FilesInRangeSpec | src/lazylabel/utils/fast_file_manager.py:1815-1843 | the order of the two paths does not matter, and for two shown paths the result is the inclusive span from one to the other |
| FileNavigation.GetFilesInRange | src/lazylabel/utils/fast_file_manager.py:1815-1843 | the walking loop collects exactly the paths of the span |
| FileNavigation.FileSortProxyModel.HiddenCount | src/lazylabel/utils/fast_file_manager.py:752-753 | `hiddenCount`: the number of hidden source rows. |
| FileNavigation.ProxyRowFor | src/lazylabel/utils/fast_file_manager.py:1245-1256 | -1 for an unknown path or for a source row the proxy does not show, otherwise the proxy row of the path's source row. FileNavigation.ProxyRowForSpec and FileNavigation.ProxyRowOfFileAt give its properties. |
| FileNavigation.FilesInRange | src/lazylabel/utils/fast_file_manager.py:1815-1843 | Nothing when either path is not shown. Otherwise it gives the paths of the proxy rows between the two, in view order. FileNavigation.FilesInRangeSpec gives its properties, and FileNavigation.GetFilesInRange computes it. |
| ImagePreload.FirstIndex | src/lazylabel/ui/managers/image_preload_manager.py:44-47 | list.index: None exactly when the path is absent (the ValueError). Otherwise it returns the first position holding the path. |
| ImagePreload.Candidate | src/lazylabel/ui/managers/image_preload_manager.py:52-57 | Gives at most one path: the path at the target offset when it is in bounds and not cached, and nothing otherwise. |
| ImagePreload.AdjacentToPreload | src/lazylabel/ui/managers/image_preload_manager.py:37-59 | At most three paths, each in the list and uncached. There are none for an empty list, a missing current path, or a current path not in the list. |
| ImagePreload.AdjacentComplete | src/lazylabel/ui/managers/image_preload_manager.py:51-57 | Every in-bounds, uncached neighbour at offset +1, +2 or -1 of the current image is selected. |
| ImagePreload.AdjacentSound | src/lazylabel/ui/managers/image_preload_manager.py:51-57 | Only such neighbours are selected: each selected path sits at one of the three offsets, in bounds, and is uncached. |
| ImagePreload.AdjacentOrder | src/lazylabel/ui/managers/image_preload_manager.py:51 | The +1 neighbour, when selected, comes first, and the -1 neighbour, when selected, comes last. |
| ImagePreload.ImagePreloadManager.constructor | src/lazylabel/ui/managers/image_preload_manager.py:25-35 | The cache starts empty with the given positive maximum size. |
| ImagePreload.ImagePreloadManager.OnImagePreloaded | src/lazylabel/ui/managers/image_preload_manager.py:123-130 | The oldest entries are evicted until max_cache_size - 1 remain, then the image is stored, so the path is present with that pixmap. |
| ImagePreload.PreloadedIsNewest | src/lazylabel/ui/managers/image_preload_manager.py:125-130 | A new path becomes the most recent entry after the eviction. The size stays within max_cache_size, and the survivors are the previous newest entries in order. |
| ImagePreload.ImagePreloadManager.GetPreloadedPixmap | src/lazylabel/ui/managers/image_preload_manager.py:132-145 | A miss returns None and changes nothing. A hit returns the pixmap and makes the path the most recent. |
| ImagePreload.ImagePreloadManager.ClearCache | src/lazylabel/ui/managers/image_preload_manager.py:160-162 | The cache is empty. |
| ImagePreload.ImagePreloadManager.PathsToPreload | src/lazylabel/ui/managers/image_preload_manager.py:37-59 | The paths `preload_adjacent_images` hands to the workers. An empty current path counts as no path, and the cached paths are the keys of the cache. ImagePreload.AdjacentToPreload gives its properties. |
| ImagePreload.ImagePreloadManager.Contains | src/lazylabel/ui/managers/image_preload_manager.py:164-166 | `path in manager`: the path has a cached pixmap. |
| MaskExport.ChannelPixelsSpec | src/lazylabel/core/segment_manager.py:198-215 | A pixel is in channel k exactly when some segment whose class maps to k writes it, through its mask or its rasterised polygon. |
| MaskExport.RawTensor | src/lazylabel/core/segment_manager.py:193-216 | One channel per entry of class_order. |
| MaskExport.OwnerCountTwo | src/lazylabel/core/segment_manager.py:240-241 | The per-pixel count of channels is above one exactly when two different channels hold the pixel. This is the overlap mask. |
| MaskExport.OwnerCountOne | src/lazylabel/core/segment_manager.py:240 | The count is positive exactly when some channel holds the pixel. |
| MaskExport.FirstOwner | src/lazylabel/core/segment_manager.py:257-263 | argmin with the zero classes masked out: the lowest channel holding the pixel, or n when none does. |
| MaskExport.LastOwner | src/lazylabel/core/segment_manager.py:267-269 | argmax with the zero classes masked out: the highest channel holding the pixel, or -1 when none does. |
| MaskExport.ApplyPixelPriority | src/lazylabel/core/segment_manager.py:225-281 | Keeps the channel count and never adds a pixel to a channel. |
| MaskExport.PriorityExclusive | src/lazylabel/core/segment_manager.py:271-279 | After priority every pixel is set in at most one channel. |
| MaskExport.PriorityKeepsUncontested | src/lazylabel/core/segment_manager.py:243-245 | A pixel that at most one channel holds keeps exactly its channels. |
| MaskExport.PriorityResolvesContested | src/lazylabel/core/segment_manager.py:254-279 | A contested pixel stays only in its lowest original channel (ascending) or its highest (descending), and that channel did hold it. |
| MaskExport.PriorityKeepsCoverage | src/lazylabel/core/segment_manager.py:271-279 | Priority never loses a pixel: a pixel is in some channel afterwards exactly when it was before. |
| MaskExport.FinalMaskTensor | src/lazylabel/core/segment_manager.py:185-223 | One channel per entry of class_order. |
| MaskExport.FinalMaskChannel | src/lazylabel/core/segment_manager.py:194-216 | Without priority, channel k is exactly the OR of the masks of the segments whose class maps to k. |
| MaskExport.UnlistedClassIgnored | src/lazylabel/core/segment_manager.py:199-201 | A segment with no class, or a class not in class_order, writes no channel. |
| MaskExport.ExportMask | src/lazylabel/core/segment_manager.py:205-211 | The mask a segment exports: a polygon is rasterised from its vertices, and any other segment gives its stored mask. MaskExport.FinalMaskChannel uses it. |
| MaskExport.ExportReady | src/lazylabel/core/segment_manager.py:198-215 | What the export needs from the segments it reads, so that nothing raises. A polygon of an exported class has vertices, and a mask of an exported class has the image's shape. |
| MaskExport.ChannelPixels | src/lazylabel/core/segment_manager.py:198-215 | Channel k is the union of the exported masks of the segments whose class maps to k. MaskExport.ChannelPixelsSpec characterises it pixel by pixel. |
| MaskExport.OwnerCount | src/lazylabel/core/segment_manager.py:240 | `np.sum(mask_tensor > 0, axis=2)` at one pixel: how many channels hold it. MaskExport.OwnerCountOne and MaskExport.OwnerCountTwo characterise it. |
| MaskExport.Winner | src/lazylabel/core/segment_manager.py:254-269 | The channel that keeps a contested pixel: the lowest owning channel when ascending, the highest otherwise. MaskExport.FirstOwner and MaskExport.LastOwner give the bounds. |
| MultiViewCoordinator.MultiViewCoordinator.constructor | src/lazylabel/ui/managers/multi_view_coordinator.py:35-58 | Starts linked, with viewer 0 active, no points, no previews or point items, and nothing emitted. |
| MultiViewCoordinator.MultiViewCoordinator.ToggleLink | src/lazylabel/ui/managers/multi_view_coordinator.py:70-78 | Flips the link state, emits the new value and returns it. Nothing else changes. |
| MultiViewCoordinator.MultiViewCoordinator.SetLinked | src/lazylabel/ui/managers/multi_view_coordinator.py:80-90 | Sets the link state, and emits, only when the value differs. |
| MultiViewCoordinator.MultiViewCoordinator.SetActiveViewer | src/lazylabel/ui/managers/multi_view_coordinator.py:92-103 | Indices other than 0 and 1 are ignored, so the active viewer is always 0 or 1. It emits only on a change. |
| MultiViewCoordinator.MultiViewCoordinator.OtherViewer | src/lazylabel/ui/managers/multi_view_coordinator.py:105-109 | The viewer that is not active: a valid index different from the active one, equal to 1 - active. |
| MultiViewCoordinator.MultiViewCoordinator.PositivePoints | src/lazylabel/ui/managers/multi_view_coordinator.py:111-113 | A valid viewer's positive prompts, and [] for any other index. |
| MultiViewCoordinator.MultiViewCoordinator.NegativePoints | src/lazylabel/ui/managers/multi_view_coordinator.py:115-117 | A valid viewer's negative prompts, and [] for any other index. |
| MultiViewCoordinator.MultiViewCoordinator.AddPoint | src/lazylabel/ui/managers/multi_view_coordinator.py:119-133 | Appends the point to the positive or negative list of a valid viewer. An invalid index changes nothing. |
| MultiViewCoordinator.MultiViewCoordinator.ClearPoints | src/lazylabel/ui/managers/multi_view_coordinator.py:135-145 | Empties both lists of a valid viewer, and the other viewer keeps its points. |
| MultiViewCoordinator.MultiViewCoordinator.ClearAllPoints | src/lazylabel/ui/managers/multi_view_coordinator.py:147-152 | Both viewers' point lists are empty. Nothing else changes. |
| MultiViewCoordinator.MultiViewCoordinator.SetPreviewMask | src/lazylabel/ui/managers/multi_view_coordinator.py:154-157 | Sets the preview mask of a valid viewer only. |
| MultiViewCoordinator.MultiViewCoordinator.PreviewMask | src/lazylabel/ui/managers/multi_view_coordinator.py:159-161 | The viewer's preview mask, and None for any other index. |
| MultiViewCoordinator.MultiViewCoordinator.SetPreviewItem | src/lazylabel/ui/managers/multi_view_coordinator.py:163-166 | Sets the preview item of a valid viewer only. |
| MultiViewCoordinator.MultiViewCoordinator.PreviewItem | src/lazylabel/ui/managers/multi_view_coordinator.py:168-170 | The viewer's preview item, and None for any other index. |
| MultiViewCoordinator.MultiViewCoordinator.PointItems | src/lazylabel/ui/managers/multi_view_coordinator.py:172-174 | The viewer's point items, and [] for any other index. |
| MultiViewCoordinator.MultiViewCoordinator.AddPointItem | src/lazylabel/ui/managers/multi_view_coordinator.py:176-179 | Appends a point item for a valid viewer only. |
| MultiViewCoordinator.MultiViewCoordinator.ClearPointItems | src/lazylabel/ui/managers/multi_view_coordinator.py:181-184 | Empties the point items of a valid viewer only. |
| MultiViewCoordinator.MultiViewCoordinator.ResetViewer | src/lazylabel/ui/managers/multi_view_coordinator.py:188-193 | One pass of the reset loop clears that viewer's mask, item, point items and points, and leaves the other viewer untouched. |
| MultiViewCoordinator.MultiViewCoordinator.ClearAllPreviewState | src/lazylabel/ui/managers/multi_view_coordinator.py:186-195 | Both viewers lose masks, items, point items and points. The link and active state stay. |
| MultiViewCoordinator.MultiViewCoordinator.TargetViewers | src/lazylabel/ui/managers/multi_view_coordinator.py:197-206 | [0, 1] exactly when linked, and [active] exactly when not linked. |
| MultiViewCoordinator.MultiViewCoordinator.ShouldMirror | src/lazylabel/ui/managers/multi_view_coordinator.py:208-214 | True exactly when more than one viewer is targeted. |
| MultiViewCoordinator.IsViewer | src/lazylabel/ui/managers/multi_view_coordinator.py:98 | The two viewer slots, 0 and 1, that every per-viewer operation checks for. |
| MultiViewCoordinator.MultiViewCoordinator.Cleared | src/lazylabel/ui/managers/multi_view_coordinator.py:186-193 | Viewer i holds no preview mask, no preview item, no point items and no points. MultiViewCoordinator.MultiViewCoordinator.ClearAllPreviewState establishes it for both viewers. |
| MultiViewMode.OtherViewerIndices | src/lazylabel/ui/modes/multi_view_mode.py:35-38 | Strictly increasing, and holds exactly the indices in [0, num) other than the current one. |
| MultiViewMode.OtherViewerCount | src/lazylabel/ui/modes/multi_view_mode.py:35-38 | The list has num - 1 entries when the current index names a viewer, and num otherwise. |
| MultiViewMode.MirroredViews | src/lazylabel/ui/modes/multi_view_mode.py:1037-1052 | The loop that fills views gives the source viewer plus exactly the other viewers that are linked and show an image, each with the source's vertices. |
| MultiViewMode.MirrorTargets | src/lazylabel/ui/modes/multi_view_mode.py:1044-1049 | A viewer other than the source is in the views exactly when it is among the other indices, linked, and showing an image. |
| MultiViewMode.BboxRect | src/lazylabel/ui/modes/multi_view_mode.py:349-353 | The final rectangle has non-negative width and height, and spans exactly the two x and the two y coordinates of the drag. |
| MultiViewMode.BboxVertices | src/lazylabel/ui/modes/multi_view_mode.py:437-444 | Four vertices in TL, TR, BR, BL order. They form an axis-aligned rectangle whose corners lie between the first and the third vertex. |
| MultiViewMode.ClosingClickIsNear | src/lazylabel/ui/modes/multi_view_mode.py:264-278 | A click that closes the polygon comes after more than two points, and lies strictly inside the threshold square around the first point. |
| MultiViewMode.PredictionView | src/lazylabel/ui/modes/multi_view_mode.py:803-811 | The view built from a prediction holds its mask and no vertices. It has points and labels exactly when the prediction has prompts, and a box exactly when it has one. |
| MultiViewMode.PairedClassId | src/lazylabel/ui/modes/multi_view_mode.py:787-796 | The active class when there is one. Otherwise it is 1 + the largest class present, or 1 when no class is present. |
| MultiViewMode.PairedClassVersusNext | src/lazylabel/ui/modes/multi_view_mode.py:787-796 | Without an active class, the paired class equals the store's next class id, except on a store with no class, where the store gives 0 and this rule gives 1. |
| MultiViewMode.PredictionViews | src/lazylabel/ui/modes/multi_view_mode.py:800-811 | One view for each viewer in range(num) that has a prediction, each built from that prediction. |
| MultiViewMode.MultiViewMode.constructor | src/lazylabel/ui/modes/multi_view_mode.py:35-38 | Every viewer starts linked, with no polygon points, no box start or rubber band, and no predictions. |
| MultiViewMode.MultiViewMode.CreateMirroredSegment | src/lazylabel/ui/modes/multi_view_mode.py:1022-1086 | Builds a classless "Polygon" segment whose views mirror the vertices exactly as MirroredViews states. The store appends it with the class it picks, and nothing else in the store changes. |
| MultiViewMode.MultiViewMode.HandlePolygonClick | src/lazylabel/ui/modes/multi_view_mode.py:256-299 | A click near the first of more than two points finishes the polygon: a mirrored segment is added and that viewer's points are cleared. Any other click appends the point and leaves the store unchanged. |
| MultiViewMode.MultiViewMode.HandleBboxComplete | src/lazylabel/ui/modes/multi_view_mode.py:333-382 | Nothing happens without a start point and a rubber band. Otherwise both are reset. A box narrower or shorter than 2 creates nothing, and any other box becomes a mirrored segment with its TL, TR, BR, BL corners. |
| MultiViewMode.MultiViewMode.SaveAiPredictions | src/lazylabel/ui/modes/multi_view_mode.py:773-847 | With no prediction nothing happens. With two or more, one "AI" segment carries a view per predicted viewer, with the paired class. With one, an "AI" segment holds only that view and gets the store's class. The predictions are cleared afterwards. |
| MultiViewMode.MirrorsExactly | src/lazylabel/ui/modes/multi_view_mode.py:1034-1052 | The `views` dict of a new polygon or box. It holds the source viewer plus every other in-range viewer that is linked and shows an image, each with the same view data. MultiViewMode.MirroredViews establishes it. |
| MultiViewMode.ViewsSegment | src/lazylabel/ui/modes/multi_view_mode.py:1034 | A multi-view segment before `add_segment`: its type and views, with no class, mask or vertices. |
| MultiViewMode.TooSmall | src/lazylabel/ui/modes/multi_view_mode.py:360 | The size gate: a box under 2 by 2 creates no segment. MultiViewMode.MultiViewMode.HandleBboxComplete uses it. |
| Propagation.KeptPaths | src/lazylabel/ui/managers/propagation_manager.py:207-248 | the predictor gets at most as many paths as the timeline has |
| Propagation.KeptPathsAll | src/lazylabel/ui/managers/propagation_manager.py:246-251 | without reference dimensions every path is handed to the predictor |
| Propagation.KeptPathsNonEmpty | src/lazylabel/ui/managers/propagation_manager.py:253-255 | some path is handed to the predictor exactly when some frame matches the reference dimensions |
| Propagation.FilterFrames | src/lazylabel/ui/managers/propagation_manager.py:207-239 | the filtering loop keeps exactly the matching paths in order, maps each kept SAM 2 index to its timeline index and back, increasing, and skips exactly the other frames |
| Propagation.IdentityMaps | src/lazylabel/ui/managers/propagation_manager.py:248-251 | without reference dimensions both maps are the identity on the frame range |
| Propagation.BuildIndexMaps | src/lazylabel/ui/managers/propagation_manager.py:202-251 | the index maps are mutually inverse, mapped and skipped frames partition the timeline, and without reference dimensions nothing is skipped and the maps are the identity |
| Propagation.Accepted | src/lazylabel/ui/managers/propagation_manager.py:339-345 | at most one accepted SAM 2 index per argument |
| Propagation.AcceptedSpec | src/lazylabel/ui/managers/propagation_manager.py:340-344 | an index is accepted exactly when some argument translates to it, by the map or unchanged, and it lies inside the video |
| Propagation.AutoObjIdSpec | src/lazylabel/ui/managers/propagation_manager.py:390-392 | the automatic object id is 1 without annotations, otherwise one more than an existing id and larger than every id, so it is new |
| Propagation.AutoObjIdNumbered | src/lazylabel/ui/managers/propagation_manager.py:390-392 | annotations numbered 1 to n get n + 1 |
| Propagation.FromSegments | src/lazylabel/ui/managers/propagation_manager.py:441-457 | at most one annotation per segment |
| Propagation.FromSegmentsStep | src/lazylabel/ui/managers/propagation_manager.py:442-457 | each segment with a non-empty mask adds one annotation with the next automatic id, its class (0 when missing) and alias name; a maskless one adds nothing |
| Propagation.FromSegmentsSpec | src/lazylabel/ui/managers/propagation_manager.py:441-457 | every recorded annotation is on the target frame, numbered by position from 1, named by alias, and carries the mask of a masked segment; none is recorded exactly when no segment has a non-empty mask |
| Propagation.NearestKey | src/lazylabel/ui/managers/propagation_manager.py:503-516 | the nearest mapped frame in the preferred direction, falling back to the far end only when no key lies on the preferred side |
| Propagation.NearestKeyUnique | src/lazylabel/ui/managers/propagation_manager.py:503-516 | only one key satisfies the nearest-key condition |
| Propagation.NearestSam2OfKey | src/lazylabel/ui/managers/propagation_manager.py:500-516 | a mapped frame is its own nearest key, so the translation is always the mapping of the nearest key |
| Propagation.ScanHigher | src/lazylabel/ui/managers/propagation_manager.py:507-511 | the ascending scan over the sorted keys returns the nearest key at or after the index, else the last key |
| Propagation.ScanLower | src/lazylabel/ui/managers/propagation_manager.py:512-516 | the descending scan returns the nearest key at or before the index, else the first key |
| Propagation.ScanNearestSam2 | src/lazylabel/ui/managers/propagation_manager.py:484-518 | the exact mapping when present, the index itself without any mapping, else the mapping of the nearest key |
| Propagation.Stored | src/lazylabel/ui/managers/propagation_manager.py:665-700 | at most one stored result per yielded item |
| Propagation.StoredSpec | src/lazylabel/ui/managers/propagation_manager.py:665-700 | every stored result comes from a stored item and every stored item's result is kept, so nothing on a reference frame is stored |
| Propagation.LowFramesSpec | src/lazylabel/ui/managers/propagation_manager.py:665-710 | a frame is flagged by a stream exactly when an item for it, off the reference frames, is below the threshold |
| Propagation.AppendResultsSpec | src/lazylabel/ui/managers/propagation_manager.py:698-700 | after appending, a frame has results exactly when it had some or got some, and they are the old results followed by the new ones |
| Propagation.StoredAppend | src/lazylabel/ui/managers/propagation_manager.py:594-606 | the results stored for two streams in turn are those of the first followed by those of the second |
| Propagation.FlagsMatchResults | src/lazylabel/ui/managers/propagation_manager.py:839-847 | without skipping, propagation keeps the flagged frames exactly the frames with a stored result below the threshold, the set the threshold setter recomputes |
| Propagation.CutAt | src/lazylabel/ui/managers/propagation_manager.py:645-650 | every item before the cut is inside the run and the item at the cut is past the end frame |
| Propagation.CutAtIs | src/lazylabel/ui/managers/propagation_manager.py:645-650 | the cut is the first position whose item is past the end frame |
| Propagation.ComposeRuns | src/lazylabel/ui/managers/propagation_manager.py:591-606 | two triage runs in turn store, record and flag what one run over both streams would |
| Propagation.Plan | src/lazylabel/ui/managers/propagation_manager.py:577-606 | forward runs from the range start, else the first reference, to the range end, else the last frame; backward from the range end, else the last reference, to the start, else 0; bidirectional forward from the first reference and back only when it lies above the start |
| Propagation.PlanFromReferences | src/lazylabel/ui/managers/propagation_manager.py:561-606 | without a range every run leaves the references toward the ends of the video, and the bidirectional backward run exists exactly when the first reference is above frame 0 |
| Propagation.TriageItem | src/lazylabel/ui/managers/propagation_manager.py:665-710 | an item on a reference frame changes nothing; a low item under skipping only flags its frame; any other is appended to its frame's results, marks it propagated and flags it when low |
| Propagation.TriageStream | src/lazylabel/ui/managers/propagation_manager.py:639-715 | the loop stops at the first item past the end frame, and immediately when cancelled, and triages every item before that |
| Propagation.PropagationManager.constructor | src/lazylabel/ui/managers/propagation_manager.py:101-113 | a fresh state with threshold 0.99, no frames, references, annotations, results or maps, and no cancellation |
| Propagation.PropagationManager.Cleanup | src/lazylabel/ui/managers/propagation_manager.py:283-294 | back to the fresh state |
| Propagation.PropagationManager.InitSequence | src/lazylabel/ui/managers/propagation_manager.py:163-281 | succeeds exactly when a video model exists, some frame is kept and the predictor accepts the kept paths; on failure nothing changes; on success the state is fresh with the predictor's frame count, the reference dimensions and maps over exactly the kept frames |
| Propagation.PropagationManager.Reinitialize | src/lazylabel/ui/managers/propagation_manager.py:267-275 | the state becomes initialised with the given count and maps and everything else fresh |
| Propagation.PropagationManager.PrimaryReferenceIdx | src/lazylabel/ui/managers/propagation_manager.py:145-151 | -1 exactly when there is no reference frame, else the smallest one |
| Propagation.PropagationManager.AddReferenceFrame | src/lazylabel/ui/managers/propagation_manager.py:296-324 | succeeds exactly when initialised and the translated index is a frame of the video, and then adds it |
| Propagation.PropagationManager.AddReferenceFrames | src/lazylabel/ui/managers/propagation_manager.py:326-347 | nothing when uninitialised; otherwise adds exactly the accepted translated indices and counts the accepted arguments |
| Propagation.PropagationManager.ClearReferenceFrames | src/lazylabel/ui/managers/propagation_manager.py:349-353 | no reference frames and no annotations remain |
| Propagation.PropagationManager.ClearReferenceAnnotations | src/lazylabel/ui/managers/propagation_manager.py:464-469 | no annotations remain |
| Propagation.PropagationManager.ClearPropagationResults | src/lazylabel/ui/managers/propagation_manager.py:471-482 | no results, propagated or flagged frames remain |
| Propagation.PropagationManager.AddReferenceAnnotation | src/lazylabel/ui/managers/propagation_manager.py:355-417 | -1 with nothing changed when uninitialised or the frame is unmapped; otherwise the SAM 2 frame becomes a reference and the annotation with the given or automatic id is appended |
| Propagation.PropagationManager.AddReferenceAnnotationsFromSegments | src/lazylabel/ui/managers/propagation_manager.py:419-462 | nothing when uninitialised; otherwise results are cleared and the annotations become exactly one per masked segment, numbered from 1 and counted, none when the frame is unmapped |
| Propagation.PropagationManager.RecordSegments | src/lazylabel/ui/managers/propagation_manager.py:441-457 | the recording loop leaves exactly the specified annotations and adds the frame as a reference when any was recorded |
| Propagation.PropagationManager.TimelineToNearestSam2 | src/lazylabel/ui/managers/propagation_manager.py:484-518 | the translation of the index through the manager's map to the nearest mapped frame |
| Propagation.PropagationManager.RequestCancel | src/lazylabel/ui/managers/propagation_manager.py:520-523 | the cancellation flag is set |
| Propagation.PropagationManager.PropagateRange | src/lazylabel/ui/managers/propagation_manager.py:608-717 | nothing for an empty run or after a cancellation; otherwise the items up to the end frame are triaged and their stored results returned in order |
| Propagation.PropagationManager.Propagate | src/lazylabel/ui/managers/propagation_manager.py:525-606 | nothing without initialisation, annotations or a model; otherwise the cancellation flag is cleared and the runs of the direction are triaged as one stream |
| Propagation.PropagationManager.PropagatePlan | src/lazylabel/ui/managers/propagation_manager.py:557-606 | after the checks the flag is cleared and the planned runs are triaged as one stream |
| Propagation.PropagationManager.PlanBounds | src/lazylabel/ui/managers/propagation_manager.py:561-575 | the first and last reference (0 with none) and the range ends translated toward the inside of the range |
| Propagation.PropagationManager.RunPlan | src/lazylabel/ui/managers/propagation_manager.py:577-606 | the runs of the plan for the direction are triaged as one stream |
| Propagation.PropagationManager.RunForward | src/lazylabel/ui/managers/propagation_manager.py:577-582 | the forward run of the plan is triaged |
| Propagation.PropagationManager.RunBackward | src/lazylabel/ui/managers/propagation_manager.py:584-589 | the backward run of the plan is triaged |
| Propagation.PropagationManager.RunBidirectional | src/lazylabel/ui/managers/propagation_manager.py:591-606 | the bidirectional runs of the plan are triaged |
| Propagation.PropagationManager.PropagateBothWays | src/lazylabel/ui/managers/propagation_manager.py:591-606 | forward from the first reference to the end, then backward to the start only when the first reference lies above it |
| Propagation.PropagationManager.FrameStatusAt | src/lazylabel/ui/managers/propagation_manager.py:719-738 | skipped, reference, flagged, propagated and pending each hold exactly under the source's precedence, and a skipped frame is never mapped |
| Propagation.PropagationManager.FrameResults | src/lazylabel/ui/managers/propagation_manager.py:740-749 | the stored results of the frame, none when it has none |
| Propagation.PropagationManager.ReferenceAnnotationForObj | src/lazylabel/ui/managers/propagation_manager.py:751-765 | none exactly when no annotation has the id, else the first annotation with it |
| Propagation.PropagationManager.NextFlaggedFrame | src/lazylabel/ui/managers/propagation_manager.py:801-815 | the first flagged frame after the current one, wrapping to the first flagged frame, none without any |
| Propagation.PropagationManager.PrevFlaggedFrame | src/lazylabel/ui/managers/propagation_manager.py:817-831 | the last flagged frame before the current one, wrapping to the last flagged frame, none without any |
| Propagation.PropagationManager.SetConfidenceThreshold | src/lazylabel/ui/managers/propagation_manager.py:833-854 | the threshold is clamped to between 0 and 1 and the flagged frames become exactly the frames with a stored result below it |
| Propagation.IndexMapsConsistent | src/lazylabel/ui/managers/propagation_manager.py:202-251 | What `init_sequence` sets up. The two index maps are mutually inverse, SAM 2 indices are non-negative and their timeline frames increase with them, and no skipped frame is mapped. Propagation.BuildIndexMaps establishes it. |
| Propagation.AutoObjId | src/lazylabel/ui/managers/propagation_manager.py:390-392 | One more than the largest object id among the annotations, counting from a default of 0. Propagation.AutoObjIdSpec and Propagation.AutoObjIdNumbered give its properties. |
| Propagation.ClassName | src/lazylabel/ui/managers/propagation_manager.py:447-449 | The class's alias, or "Class " followed by its id when it has no alias. |
| Propagation.HasMask | src/lazylabel/ui/managers/propagation_manager.py:443-444 | A segment with a mask that has some pixel set becomes a reference annotation. |
| Propagation.NearestSam2 | src/lazylabel/ui/managers/propagation_manager.py:484-518 | The exact mapping of a mapped frame. Otherwise it gives the mapping of the nearest key on the preferred side, and the frame itself when no key exists. Propagation.NearestSam2OfKey and Propagation.NearestKey give its properties. |
| Propagation.IsLow | src/lazylabel/ui/managers/propagation_manager.py:672 | A yielded item is flagged when its confidence is below the threshold. |
| Propagation.IsStored | src/lazylabel/ui/managers/propagation_manager.py:665-680 | An item becomes a result unless it is on a reference frame, or is low while low frames are skipped. |
| Propagation.ResultOf | src/lazylabel/ui/managers/propagation_manager.py:656-696 | The result built from an item: its timeline frame, object, mask and confidence, and the SAM 2 frame's image path. The path is "" past the end of the paths. |
| Propagation.LowFrames | src/lazylabel/ui/managers/propagation_manager.py:672-710 | The timeline frames a stream flags: those of low items outside reference frames, whether or not their results are stored. Propagation.LowFramesSpec characterises them. |
| Propagation.FramesOf | src/lazylabel/ui/managers/propagation_manager.py:708 | The timeline frames that the results are for, which become propagated frames. Propagation.FramesOfSpec characterises them. |
| Propagation.OfFrame | src/lazylabel/ui/managers/propagation_manager.py:698-700 | A frame's results, in stream order. |
| Propagation.AppendResults | src/lazylabel/ui/managers/propagation_manager.py:698-700 | Each result is appended in turn to its frame's list, and a missing list is created first. Propagation.AppendResultsSpec proves that each frame's list grows by exactly its results. |
| Propagation.RunItems | src/lazylabel/ui/managers/propagation_manager.py:625-652 | The items one `_propagate_range` call processes. There are none when the run is empty; otherwise they are the predictor's stream up to the first item past the end frame. |
| Propagation.PlanItems | src/lazylabel/ui/managers/propagation_manager.py:577-606 | The items of all runs of a plan, in run order. |
| Propagation.Triaged | src/lazylabel/ui/managers/propagation_manager.py:639-715 | The loop invariant of the triage. Taken over the items so far, the output, the result map and the propagated and flagged sets are what those items produce. |
| Propagation.PropagationManager.PlanFor | src/lazylabel/ui/managers/propagation_manager.py:557-606 | The runs `propagate` makes from the current state. Its bounds come from the reference frames, or from the range ends after the timeline-to-SAM 2 snap. Propagation.Plan and Propagation.PropagationManager.PlanBounds give its properties. |
| SamInitWorker.Lower | src/lazylabel/ui/workers/multi_view_sam_init_worker.py:51 | lower-casing keeps the length and lower-cases each character |
| SamInitWorker.AnyIn | src/lazylabel/ui/workers/multi_view_sam_init_worker.py:53 | true exactly when some indicator occurs in the text |
| SamInitWorker.IsSam2Name | src/lazylabel/ui/workers/multi_view_sam_init_worker.py:52-53 | a file name is a SAM 2 checkpoint exactly when it contains one of the seven SAM 2 indicators |
| SamInitWorker.ModelTypeOf | src/lazylabel/ui/workers/multi_view_sam_init_worker.py:60-81 | always one of the seven model types, a SAM 2 type exactly for a SAM 2 name; a SAM 2 name mentioning tiny or _t selects sam2_tiny, and a SAM 1 name mentioning vit_l or large selects vit_l |
| SamInitWorker.DetectModelType | src/lazylabel/ui/workers/multi_view_sam_init_worker.py:55-81 | always one of the seven model types, a SAM 2 type exactly when the checkpoint is a SAM 2 model |
| SamInitWorker.OnlyBasenameMatters | src/lazylabel/ui/workers/multi_view_sam_init_worker.py:51-60 | the directory part of a path never changes the classification |
| SamInitWorker.LowerIdempotent | src/lazylabel/ui/workers/multi_view_sam_init_worker.py:51 | lower-casing twice is lower-casing once |
| SamInitWorker.CaseInsensitive | src/lazylabel/ui/workers/multi_view_sam_init_worker.py:46-81 | upper- and lower-case spellings of a path are classified alike |
| SamInitWorker.MultiViewSamInitWorker.constructor | src/lazylabel/ui/workers/multi_view_sam_init_worker.py:22-40 | the viewer count and default model type are kept and no stop is requested |
| SamInitWorker.MultiViewSamInitWorker.Stop | src/lazylabel/ui/workers/multi_view_sam_init_worker.py:42-44 | the stop flag is set |
| SamInitWorker.FileName | src/lazylabel/ui/workers/multi_view_sam_init_worker.py:51 | The lower-cased basename of a path. SamInitWorker.OnlyBasenameMatters and SamInitWorker.CaseInsensitive give its properties. |
| SamInitWorker.IsSam2Model | src/lazylabel/ui/workers/multi_view_sam_init_worker.py:46-53 | A path names a SAM 2 checkpoint when its lower-cased file name contains one of the SAM 2 indicators, by SamInitWorker.IsSam2Name. |
| SamMultiView.SamMultiViewManager.constructor | src/lazylabel/ui/managers/sam_multi_view_manager.py:31-51 | Starts with no models, both viewers dirty, no image keys, and neither initialising nor failed. |
| SamMultiView.SamMultiViewManager.SamIsDirty | src/lazylabel/ui/managers/sam_multi_view_manager.py:53-55 | A viewer's dirty flag, and true for any index outside {0, 1}. |
| SamMultiView.SamMultiViewManager.SetSamIsDirty | src/lazylabel/ui/managers/sam_multi_view_manager.py:57-60 | Sets the flag of viewer 0 or 1 and ignores any other index. Nothing else changes. |
| SamMultiView.SamMultiViewManager.IsModelReady | src/lazylabel/ui/managers/sam_multi_view_manager.py:62-67 | True exactly for a valid viewer whose model exists and is loaded. |
| SamMultiView.SamMultiViewManager.AreAllModelsReady | src/lazylabel/ui/managers/sam_multi_view_manager.py:69-71 | True exactly when both viewers' models are ready. |
| SamMultiView.SamMultiViewManager.StartInitialization | src/lazylabel/ui/managers/sam_multi_view_manager.py:92-138 | Starts exactly when initialisation has neither failed nor is running. It then sets the initialising flag and holds a new worker. A refusal changes nothing. |
| SamMultiView.SamMultiViewManager.OnModelInitialized | src/lazylabel/ui/managers/sam_multi_view_manager.py:147-151 | The viewer's model is stored and the viewer is marked dirty, so it needs its image. |
| SamMultiView.SamMultiViewManager.OnAllModelsInitialized | src/lazylabel/ui/managers/sam_multi_view_manager.py:153-168 | Initialisation is over and the worker is released. The failure flag stays. |
| SamMultiView.SamMultiViewManager.OnInitError | src/lazylabel/ui/managers/sam_multi_view_manager.py:170-181 | Sets the failure flag and clears initialising. With StartInitialization this blocks restarts until ResetInitFailed. |
| SamMultiView.SamMultiViewManager.EnsureViewerImageLoaded | src/lazylabel/ui/managers/sam_multi_view_manager.py:192-248 | False for an invalid index. When the model is not ready it is false, and initialisation starts if it is neither running nor failed. It is true, changing nothing, when the viewer is not dirty. When the path's key equals the stored key, dirty is cleared and it is true. A successful load clears dirty and stores the key. Every other path returns false. True always means the model is ready and the viewer is clean. |
| SamMultiView.SamMultiViewManager.Predict | src/lazylabel/ui/managers/sam_multi_view_manager.py:250-283 | An invalid viewer returns None and changes nothing. Otherwise the result is the model's answer exactly when the viewer's image can be made ready and there is a positive point, and None otherwise; a result implies a ready model and a clean image. Loading the image sets the dirty flag and the hash as SamMultiView.SamMultiViewManager.DirtyAfterLoad and SamMultiView.SamMultiViewManager.HashesAfterLoad say, and a model that was not ready starts initialising unless it failed before. |
| SamMultiView.SamMultiViewManager.PredictFromBox | src/lazylabel/ui/managers/sam_multi_view_manager.py:285-326 | The same guards without the point requirement: the result is the model's answer for the box exactly when the image can be made ready, and None otherwise. The dirty flags, hashes and initialisation change as for Predict. |
| SamMultiView.SamMultiViewManager.MarkAllDirty | src/lazylabel/ui/managers/sam_multi_view_manager.py:328-330 | Both viewers are dirty. Nothing else changes. |
| SamMultiView.SamMultiViewManager.MarkViewerDirty | src/lazylabel/ui/managers/sam_multi_view_manager.py:332-335 | Marks viewer 0 or 1 dirty and ignores any other index. |
| SamMultiView.SamMultiViewManager.ResetInitFailed | src/lazylabel/ui/managers/sam_multi_view_manager.py:337-342 | Clears the failure flag, so a later start can run. |
| SamMultiView.SamMultiViewManager.Cleanup | src/lazylabel/ui/managers/sam_multi_view_manager.py:344-365 | No worker and no models, both viewers dirty, no image keys, and both flags false. |
| SamMultiView.SamMultiViewManager.ImageReady | src/lazylabel/ui/managers/sam_multi_view_manager.py:192-248 | When `ensure_viewer_image_loaded` answers True. The model is ready, and either the viewer is clean, or its image path is non-empty and either hashes to the stored key or loads. |
| SamMultiView.SamMultiViewManager.HashesAfterLoad | src/lazylabel/ui/managers/sam_multi_view_manager.py:225-241 | The image keys after the load. Only a fresh successful load stores the new key; a hash match or a failure leaves the keys as they were. |
| SamMultiView.SamMultiViewManager.DirtyAfterLoad | src/lazylabel/ui/managers/sam_multi_view_manager.py:211-241 | The dirty flags after the load: the viewer is marked clean exactly when it was made ready, and the other viewer keeps its flag. |
| SaveExport.PublicOnly | src/lazylabel/ui/managers/save_export_manager.py:376-378 | Keeps exactly the keys that do not start with "_", with their values. |
| SaveExport.ForViewer | src/lazylabel/ui/managers/save_export_manager.py:355-384 | A "views" segment contributes for viewer v exactly when v is a key of its views. It contributes the type and class overlaid with that view's data, and no _source_viewer. A legacy segment whose _source_viewer is not None contributes only for that viewer. An untagged one, with no _source_viewer or None under it, contributes for every viewer. Both legacy cases drop the "_" keys. |
| SaveExport.SegmentsForViewer | src/lazylabel/ui/managers/save_export_manager.py:342-386 | The output is never longer than the store. |
| SaveExport.SegmentsForViewerAppend | src/lazylabel/ui/managers/save_export_manager.py:351-386 | The filter works segment by segment: the output for a concatenation is the concatenation of the outputs, so the store order is kept. |
| SaveExport.SegmentsForViewerMembers | src/lazylabel/ui/managers/save_export_manager.py:351-386 | Each output segment is the contribution of some input segment, and every contribution appears in the output. |
| SaveExport.NoSourceTagSaved | src/lazylabel/ui/managers/save_export_manager.py:365-378 | No segment saved for a viewer carries a _source_viewer tag. |
| SaveExport.ToggledAiFilter | src/lazylabel/ui/managers/save_export_manager.py:333-338 | The new threshold is the remembered value when the filter is at 0, and 0 otherwise. |
| SaveExport.ToggleAiFilterTwice | src/lazylabel/ui/managers/save_export_manager.py:333-338 | Toggling twice returns to 0 when the threshold started at 0, and to the remembered value otherwise. |
| SaveExport.ApplyFragmentThreshold | src/lazylabel/ui/managers/save_export_manager.py:288-293 | No mask stays no mask, and a zero threshold returns the mask unchanged. Any other threshold is decided by the contour filter, which is a parameter. |
| SaveExport.IsPrivate | src/lazylabel/ui/managers/save_export_manager.py:376 | A key starting with `_` is internal metadata and is never saved. SaveExport.PublicOnly filters on it. |
| SegmentDisplay.UnshiftShift | src/lazylabel/ui/managers/segment_display_manager.py:158-167 | Shifting the key of an entry from a surviving segment and then unshifting it gives back the original key, so the shift is one-to-one on survivors. |
| SegmentDisplay.ShiftEntriesOrigin | src/lazylabel/ui/managers/segment_display_manager.py:155-168 | Each key of the rebuilt cache comes from an entry of a surviving segment and holds that entry's value. |
| SegmentDisplay.ShiftEntriesKeys | src/lazylabel/ui/managers/segment_display_manager.py:155-168 | No two survivors land on the same key, so the rebuilt cache has the surviving keys, shifted, in their original LRU order. |
| SegmentDisplay.ShiftEntriesValues | src/lazylabel/ui/managers/segment_display_manager.py:155-168 | Every entry of a surviving segment is in the rebuilt cache under its shifted key, with its value. |
| SegmentDisplay.ShiftLoop | src/lazylabel/ui/managers/segment_display_manager.py:155-168 | The loop over the cache items that builds the new OrderedDict computes exactly the specified shifted cache. |
| SegmentDisplay.ShiftHighlightAsWritten | src/lazylabel/ui/managers/segment_display_manager.py:171-181 | The highlight half as written unpacks each key into three names. Keys are four-tuples, so unpacking fails (None) exactly when the highlight cache is non-empty. |
| SegmentDisplay.HighlightShiftAsWrittenFails | src/lazylabel/ui/managers/segment_display_manager.py:173 | With an entry of a surviving segment, the code as written fails. The four-part shift would have kept that entry under its shifted key with its value. |
| SegmentDisplay.ShiftedOrigin | src/lazylabel/ui/managers/segment_display_manager.py:155-168 | After the shift, every entry comes from a surviving segment's entry and has the same value. |
| SegmentDisplay.ShiftedKeeps | src/lazylabel/ui/managers/segment_display_manager.py:155-168 | The deleted segment's entries are dropped, indices above it drop by one, lower indices stay, and the LRU order is kept. Each survivor keeps its value. |
| SegmentDisplay.PixmapMissBound | src/lazylabel/ui/managers/segment_display_manager.py:111-116 | On a miss, evicting below 500 and then storing two entries leaves both new pixmaps stored, with at most 501 entries. |
| SegmentDisplay.HighlightMissBound | src/lazylabel/ui/managers/segment_display_manager.py:205-217 | On a highlight miss, evicting below 200 and then storing one entry leaves the new pixmap as the most recent entry, with at most 200 entries. |
| SegmentDisplay.SegmentDisplayManager.constructor | src/lazylabel/ui/managers/segment_display_manager.py:37-55 | Both pixmap caches and the colour cache start empty, and the valid flag starts true. |
| SegmentDisplay.SegmentDisplayManager.GetCachedPixmaps | src/lazylabel/ui/managers/segment_display_manager.py:62-118 | A hit needs the valid flag and both the alpha-70 and alpha-170 keys. It returns the stored pair and makes both keys the most recent. A miss renders both, evicts below the maximum and stores them. Nothing else changes. |
| SegmentDisplay.SegmentDisplayManager.TouchPixmaps | src/lazylabel/ui/managers/segment_display_manager.py:85-101 | The hit path: the stored pair is returned and both keys become the most recent, in the order 70 then 170. |
| SegmentDisplay.SegmentDisplayManager.StorePixmaps | src/lazylabel/ui/managers/segment_display_manager.py:103-116 | The miss path: evict the oldest entries until fewer than 500 remain, then store the alpha-70 and alpha-170 pixmaps. |
| SegmentDisplay.SegmentDisplayManager.GetCachedHighlightPixmap | src/lazylabel/ui/managers/segment_display_manager.py:183-217 | A hit returns the stored pixmap and makes it the most recent. A miss renders it, evicts below 200 and stores it. The segment and colour caches do not change. |
| SegmentDisplay.SegmentDisplayManager.InvalidateCache | src/lazylabel/ui/managers/segment_display_manager.py:120-142 | None empties both pixmap caches. A list removes exactly the entries whose segment index is listed, keeping the order of the rest. The colour cache and the flag stay. |
| SegmentDisplay.SegmentDisplayManager.ShiftCacheAfterDeletion | src/lazylabel/ui/managers/segment_display_manager.py:144-181 | Both caches become their shifted versions, computed on the four-part keys actually stored. The colour cache and the flag stay. |
| SegmentDisplay.SegmentDisplayManager.GetColorForClass | src/lazylabel/ui/managers/segment_display_manager.py:219-245 | The memo never changes the answer: the colour is the fixed grey for None, and otherwise the class's colour, which is memoised. |
| SegmentDisplay.SegmentDisplayManager.ClearClassColorCache | src/lazylabel/ui/managers/segment_display_manager.py:247-252 | Only the class colour cache is emptied. |
| SegmentDisplay.SegmentDisplayManager.ClearAllCaches | src/lazylabel/ui/managers/segment_display_manager.py:254-261 | The segment cache, the highlight cache and the class colour cache are all emptied. |
| SegmentDisplay.SegmentDisplayManager.ClearPixmapCaches | src/lazylabel/ui/managers/segment_display_manager.py:263-269 | Both pixmap caches are emptied and the class colours stay. |
| SegmentDisplay.SegmentDisplayManager.SetCacheValid | src/lazylabel/ui/managers/segment_display_manager.py:271-277 | Only the flag that gates pixmap hits changes. |
| SegmentDisplay.ShiftKey | src/lazylabel/ui/managers/segment_display_manager.py:158-167 | The key of an entry after the deletion: a later segment index moves down by one and the rest of the key is kept. SegmentDisplay.UnshiftShift inverts it. |
| SegmentDisplay.ShiftEntries | src/lazylabel/ui/managers/segment_display_manager.py:155-168 | The cache the shift loop builds from the entries in order. The deleted segment's entries are dropped and the others are stored under shifted keys. SegmentDisplay.ShiftEntriesKeys, SegmentDisplay.ShiftEntriesValues and SegmentDisplay.ShiftEntriesOrigin give its properties. |
| SegmentDisplay.Shifted | src/lazylabel/ui/managers/segment_display_manager.py:155-168 | The segment cache after the shift of `shift_cache_after_deletion`. It is well formed and never larger than before; SegmentDisplay.ShiftedOrigin and SegmentDisplay.ShiftedKeeps give the rest. |
| SegmentDisplay.Unlisted | src/lazylabel/ui/managers/segment_display_manager.py:129-141 | The filter of `invalidate_cache(segment_indices)`: it keeps the entries of segments that are not listed. |
| Segments.ClassIdsSpec | src/lazylabel/core/segment_manager.py:722-726 | A class id is present exactly when some segment carries it. |
| Segments.MaxClassId | src/lazylabel/core/segment_manager.py:727-730 | None exactly when no class is present. Otherwise it is a present class that no present class exceeds. |
| Segments.NextIdFor | src/lazylabel/core/segment_manager.py:720-730 | One more than every class present, and one more than a present class, so it is max + 1. It is 0 when no class is present. |
| Segments.ClassIdList | src/lazylabel/core/segment_manager.py:89-95 | Holds exactly the non-None class ids of the segments. |
| Segments.UniqueClassIds | src/lazylabel/core/segment_manager.py:87-95 | Strictly increasing, holding exactly the classes present, so it is the sorted class set. |
| Segments.SameClassesSameIds | src/lazylabel/core/segment_manager.py:720-730 | Edits that keep every segment's class keep the class set, and so keep next_class_id. |
| Segments.MaskSegment | src/lazylabel/core/segment_manager.py:159-165 | A mask-only segment of the given type and class, without vertices, views or other keys, as merging and erasing build them. |
| Segments.ClassIds | src/lazylabel/core/segment_manager.py:722-726 | The set of non-None class ids of the segments. Segments.ClassIdsSpec proves that an id is present exactly when some segment carries it. |
| Geometry.Minus | src/lazylabel/core/segment_manager.py:588 | The pixels of the first mask that the second does not set, on the first mask's grid. |
| Geometry.RasterizePolygon | src/lazylabel/core/segment_manager.py:172-183 | No mask exactly for an empty vertex list. Otherwise an h by w mask of the fill, which is a parameter. |
| Geometry.Or | src/lazylabel/core/segment_manager.py:155 | `np.logical_or` on masks of one shape: the grid of the first mask, with the pixels of both. |
| Geometry.Overlaps | src/lazylabel/core/segment_manager.py:428-429 | `np.any(np.logical_and(a, b))`: the two masks share a pixel. |
| Geometry.PolygonCloses | src/lazylabel/ui/managers/polygon_drawing_manager.py:79-84 | A click closes the polygon when there are more than two points and the squared distance to the first point is below the squared join threshold. MultiViewMode.ClosingClickIsNear proves the distance bound. |
| SegmentStore.TargetsSnoc | src/lazylabel/core/segment_manager.py:81-83 | Adding one index to the list adds that index's Python-resolved position, if it is in range, to the targeted positions. |
| SegmentStore.ExistingIds | src/lazylabel/core/segment_manager.py:70-74 | Holds exactly the classes that the targeted segments already carry. |
| SegmentStore.MinOf | src/lazylabel/core/segment_manager.py:77 | min(): a member of the list that no member is below. |
| SegmentStore.AssignTargetIsMinimum | src/lazylabel/core/segment_manager.py:70-79 | When some target carries a class, the assigned class is one of theirs and no target's class is below it. When none does, it is next_class_id. |
| SegmentStore.IdMapSpec | src/lazylabel/core/segment_manager.py:285 | {old: new for new, old in enumerate(order)}: exactly the listed ids are mapped, each to the last position where it is listed. |
| SegmentStore.IdMapInjective | src/lazylabel/core/segment_manager.py:285 | Different ids never get the same new index. |
| SegmentStore.ReorderedAliasesSpec | src/lazylabel/core/segment_manager.py:293-298 | The alias of every listed, aliased id sits at its new index, and nothing else is aliased. |
| SegmentStore.Relabelled | src/lazylabel/core/segment_manager.py:287-290 | The list keeps its length, and each segment is relabelled by the map: mapped classes change and the rest stay. |
| SegmentStore.ReassignDense | src/lazylabel/core/segment_manager.py:283-299 | When the new order lists every class present, the classes afterwards are exactly in 0..len(order)-1. |
| SegmentStore.FirstMaskShape | src/lazylabel/core/segment_manager.py:126-131 | None exactly when no segment carries a mask. |
| SegmentStore.MergedMask | src/lazylabel/core/segment_manager.py:142-155 | The merged mask of a class has the image's shape. |
| SegmentStore.MergedMaskPixels | src/lazylabel/core/segment_manager.py:145-155 | A pixel is in the merged mask of class c exactly when some class-c segment of the right shape contributes it, through its mask or its rasterised polygon. |
| SegmentStore.MergeOutput | src/lazylabel/core/segment_manager.py:137-166 | At most one segment per class. Each is a "Loaded" segment with a non-empty mask, no vertices and a listed class, and its mask is that class's merged mask. |
| SegmentStore.MergeOutputIncreasing | src/lazylabel/core/segment_manager.py:139 | The merged segments appear in increasing class order. |
| SegmentStore.SnocIncreasing | src/lazylabel/core/segment_manager.py:139-166 | Appending at most one segment of a class above all earlier classes keeps the classes increasing. |
| SegmentStore.MergeOutputHasClass | src/lazylabel/core/segment_manager.py:157-166 | Every class whose merge is non-empty has a merged segment. |
| SegmentStore.MergeIsUnionPerClass | src/lazylabel/core/segment_manager.py:97-170 | Merge by class: a pixel lies in the merged segment of class c exactly when some class-c segment contributes it. |
| SegmentStore.BigComponents | src/lazylabel/core/segment_manager.py:686-716 | Only components of more than 10 pixels are kept. Each becomes an "AI" mask segment of the original's class. |
| SegmentStore.HitPositions | src/lazylabel/core/segment_manager.py:564-584 | Strictly increasing positions in the list. |
| SegmentStore.HitPositionsSpec | src/lazylabel/core/segment_manager.py:579-584 | A position is hit exactly when the segment's aligned mask overlaps the eraser. |
| SegmentStore.RemovedEntries | src/lazylabel/core/segment_manager.py:585 | One record per hit position, holding that position and the original segment. |
| SegmentStore.EraseKeepsUntouched | src/lazylabel/core/segment_manager.py:583-610 | A segment the eraser does not overlap survives the erase unchanged. |
| SegmentStore.EraseRemovesHit | src/lazylabel/core/segment_manager.py:583-606 | A segment the eraser overlaps is not among the surviving originals. |
| SegmentStore.BigComponentsInside | src/lazylabel/core/segment_manager.py:686-716 | For components inside a mask, every kept one is an "AI" segment of the class, with more than 10 pixels, inside that mask. |
| SegmentStore.FragmentShape | src/lazylabel/core/segment_manager.py:587-602 | Every fragment comes from a hit segment. It is an "AI" mask segment of that segment's class with more than 10 pixels, and each of its pixels was in the segment and not erased. |
| SegmentStore.Toggled | src/lazylabel/core/segment_manager.py:317-327 | c is active afterwards exactly when it was not active before. Otherwise no class is active, so toggling c twice from None restores None. |
| SegmentStore.MergeClass | src/lazylabel/core/segment_manager.py:143-155 | The loop that ORs the masks of one class computes that class's merged mask. |
| SegmentStore.Assigned | src/lazylabel/core/segment_manager.py:81-83 | Every targeted segment carries the assigned class, and every other segment is unchanged. |
| SegmentStore.AssignAll | src/lazylabel/core/segment_manager.py:81-83 | The loop that writes the class index by index computes Assigned. |
| SegmentStore.RelabelAll | src/lazylabel/core/segment_manager.py:287-290 | The relabelling loop computes Relabelled. |
| SegmentStore.DeleteAll | src/lazylabel/core/segment_manager.py:60-62 | The loop that deletes the in-range positions one after another computes DeleteEach on that order. |
| SegmentStore.EraseList | src/lazylabel/core/segment_manager.py:563-615 | Scanning, deleting the hit segments from the highest index down, and appending the fragments returns the hit positions and their records, and yields the specified erase. |
| SegmentStore.AppendAll | src/lazylabel/core/segment_manager.py:609-610 | Appending the new segments one by one gives base + extra. |
| SegmentStore.ScanOne | src/lazylabel/core/segment_manager.py:564-602 | For one segment, says whether the eraser hits it and returns the fragments that replace it. |
| SegmentStore.MergeList | src/lazylabel/core/segment_manager.py:137-166 | The merge loop over the classes in increasing order computes MergedByClass. |
| SegmentStore.ScanErase | src/lazylabel/core/segment_manager.py:563-602 | The scan returns the hit positions, their records, and all fragments to append. |
| SegmentStore.SegmentManager.constructor | src/lazylabel/core/segment_manager.py:13-18 | An empty store with no aliases, next class id 0, and no active or last-toggled class. |
| SegmentStore.SegmentManager.Clear | src/lazylabel/core/segment_manager.py:20-26 | Back to the empty store. |
| SegmentStore.SegmentManager.AddSegment | src/lazylabel/core/segment_manager.py:28-56 | A segment without a class takes the active class, else next_class_id. The class used becomes the last toggled one, the segment goes at the end, and next_class_id is recomputed (Valid). |
| SegmentStore.SegmentManager.DeleteSegments | src/lazylabel/core/segment_manager.py:58-63 | Deletes in descending index order and skips out-of-range indices. For a duplicate-free list this removes exactly the in-range positions and keeps the survivors in order. |
| SegmentStore.SegmentManager.AssignSegmentsToClass | src/lazylabel/core/segment_manager.py:65-85 | An empty list is a no-op. An index below -len raises IndexError before anything changes. Otherwise every targeted segment gets the minimum existing class among the targets, else next_class_id, and no other segment changes. |
| SegmentStore.SegmentManager.ReassignClassIds | src/lazylabel/core/segment_manager.py:283-299 | Each class listed in the new order becomes its position there, segments of unlisted classes keep theirs, and aliases follow their classes. |
| SegmentStore.SegmentManager.MergeSegmentsByClass | src/lazylabel/core/segment_manager.py:97-170 | The list becomes the merge by class when there are segments, some with a class and one with a mask. Otherwise it is unchanged. |
| SegmentStore.SegmentManager.EraseSingleView | src/lazylabel/core/segment_manager.py:554-615 | Every segment overlapping the eraser is removed and replaced, at the end of the list, by the components of its remainder with more than 10 pixels. Returns the hit positions and their records. An erase that hits nothing changes nothing. |
| SegmentStore.SegmentManager.SetClassAlias | src/lazylabel/core/segment_manager.py:301-303 | Only the alias of that class changes. |
| SegmentStore.SegmentManager.GetClassAlias | src/lazylabel/core/segment_manager.py:305-307 | The stored alias for a class that has one; otherwise exactly `str(class_id)` (Text.IntToString), which `int()` parses back to the id. |
| SegmentStore.SegmentManager.SetActiveClass | src/lazylabel/core/segment_manager.py:309-311 | Only the active class changes. |
| SegmentStore.SegmentManager.ToggleActiveClass | src/lazylabel/core/segment_manager.py:317-327 | c becomes the last toggled class. It is active afterwards unless it was already active, in which case no class is active. Returns whether c is now active. |
| SegmentStore.SegmentManager.ClassToToggleWithHotkey | src/lazylabel/core/segment_manager.py:333-348 | The last toggled class when there is one. Otherwise the highest class present, or None when there is none. |
| SegmentStore.EraseNothing | src/lazylabel/core/segment_manager.py:612-615 | An erase that hits nothing leaves the list as it was. |
| SegmentStore.DefaultClass | src/lazylabel/core/segment_manager.py:34-38 | The class a segment without one receives: the active class when one is set, otherwise next_class_id. SegmentStore.SegmentManager.AddSegment states the resulting store. |
| SegmentStore.WithClass | src/lazylabel/core/segment_manager.py:34-38 | A segment that carries a class keeps it; one without gets DefaultClass. Nothing else of the segment changes. |
| SegmentStore.Addresses | src/lazylabel/core/segment_manager.py:81-83 | Python indexing: position p is addressed by p itself or by p - len. |
| SegmentStore.Targets | src/lazylabel/core/segment_manager.py:81-83 | The in-range positions that the index list addresses. SegmentStore.TargetsSnoc gives its growth one index at a time. |
| SegmentStore.IndexErrorIn | src/lazylabel/core/segment_manager.py:70-74 | Some index lies below -len, so the comprehension raises IndexError. SegmentStore.SegmentManager.AssignSegmentsToClass reports that case. |
| SegmentStore.AssignTarget | src/lazylabel/core/segment_manager.py:70-79 | The smallest class the targets already carry, else next_class_id. SegmentStore.AssignTargetIsMinimum proves both cases. |
| SegmentStore.IdMap | src/lazylabel/core/segment_manager.py:285 | The dict comprehension over enumerate(new_order); SegmentStore.IdMapSpec and SegmentStore.IdMapInjective state what it maps. |
| SegmentStore.IsLastOccurrence | src/lazylabel/core/segment_manager.py:285 | Position j is the last one listing its id, the one the comprehension keeps. |
| SegmentStore.Relabel | src/lazylabel/core/segment_manager.py:287-290 | A segment whose class is mapped takes the new index; any other segment is unchanged. |
| SegmentStore.ReorderedAliases | src/lazylabel/core/segment_manager.py:293-298 | The alias table rebuilt for the new order; SegmentStore.ReorderedAliasesSpec states where each alias moves. |
| SegmentStore.MergeMaskOf | src/lazylabel/core/segment_manager.py:146-151 | A polygon with a non-empty vertex list is rasterised on the image grid; any other segment offers its own mask. |
| SegmentStore.ContributesTo | src/lazylabel/core/segment_manager.py:145-155 | A pixel comes from a segment into the merge of class c when the segment has class c and its mask has the image's shape and holds the pixel. SegmentStore.MergedMaskPixels proves the merge is exactly these pixels. |
| SegmentStore.MergedByClass | src/lazylabel/core/segment_manager.py:97-170 | The list is unchanged when it is empty, has no class or carries no mask; otherwise it is the per-class merge. SegmentStore.MergeIsUnionPerClass and SegmentStore.MergeOutputIncreasing state its contents and order. |
| SegmentStore.ClassesIncreasing | src/lazylabel/core/segment_manager.py:139 | Every segment has a class, and the classes strictly increase along the list, as sorted(class_segments) produces. |
| SegmentStore.SegmentMask | src/lazylabel/core/segment_manager.py:648-654 | `_get_segment_mask` on a single-view segment: a polygon with vertices is rasterised, any other segment offers its mask, and none yields None. |
| SegmentStore.AlignedMask | src/lazylabel/core/segment_manager.py:565-576 | The segment's mask, resized to the eraser's shape when the shapes differ. |
| SegmentStore.Hit | src/lazylabel/core/segment_manager.py:579-582 | The eraser overlaps the aligned mask in at least one pixel. SegmentStore.HitPositionsSpec proves that the scan records exactly these segments. |
| SegmentStore.SplitIntoComponents | src/lazylabel/core/segment_manager.py:656-718 | An empty mask gives no segments. Otherwise the labeller's components of more than 10 pixels each become a segment; SegmentStore.BigComponents and SegmentStore.BigComponentsInside state their shape. |
| SegmentStore.Fragments | src/lazylabel/core/segment_manager.py:587-602 | A hit segment is replaced by the components of what the eraser leaves; a fully erased or missed segment gives none. SegmentStore.FragmentShape states what each fragment is. |
| SegmentStore.AllFragments | src/lazylabel/core/segment_manager.py:600-602 | segments_to_add: the fragments of every segment, in list order. |
| SegmentStore.AllFragmentsNone | src/lazylabel/core/segment_manager.py:579-602 | When the eraser hits no segment, nothing is added. |
| SegmentStore.Erased | src/lazylabel/core/segment_manager.py:554-615 | The list after a single-view erase: the segments the eraser misses, in order, then the fragments. SegmentStore.EraseKeepsUntouched, SegmentStore.EraseRemovesHit and SegmentStore.EraseNothing state its properties. |
| SegmentTable.TrailingWord | src/lazylabel/ui/managers/segment_table_manager.py:179 | a suffix of the text made of non-spaces and preceded by a space whenever it is not the whole text |
| SegmentTable.LastWord | src/lazylabel/ui/managers/segment_table_manager.py:179 | the last word, when there is one, is non-empty and has no space |
| SegmentTable.CurrentTableFilter | src/lazylabel/ui/managers/segment_table_manager.py:165-182 | "All Classes" shows everything with id -1; other text shows one class exactly when it names an id, after its last colon or in its last word, and otherwise falls back to showing everything with id -1 |
| SegmentTable.NoColonInInt | src/lazylabel/ui/managers/segment_table_manager.py:376 | a printed integer has no colon |
| SegmentTable.FilterEntryRoundTrip | src/lazylabel/ui/managers/segment_table_manager.py:174-179 | the combo entry of a class parses back to that class, whatever its alias, colons included |
| SegmentTable.AliasEntryRoundTrip | src/lazylabel/ui/managers/segment_table_manager.py:376 | the entry of an aliased class names its id after its colon and is not "All Classes" |
| SegmentTable.SpacedNumber | src/lazylabel/ui/managers/segment_table_manager.py:177 | a number after a space has no colon and parses back to the number once stripped |
| SegmentTable.ColonEntry | src/lazylabel/ui/managers/segment_table_manager.py:176-177 | text whose last colon is followed by a colon-free rest names what the rest names |
| SegmentTable.ClassEntryRoundTrip | src/lazylabel/ui/managers/segment_table_manager.py:178-179 | the entry of a class without alias names its id in its last word and is not "All Classes" |
| SegmentTable.ClassWord | src/lazylabel/ui/managers/segment_table_manager.py:179 | the last word of "Class " and a number is the number |
| SegmentTable.SegmentPassesFilter | src/lazylabel/ui/managers/segment_table_manager.py:184-199 | a segment passes exactly when showing all or its class is the chosen one |
| SegmentTable.FilterSelectsClass | src/lazylabel/ui/managers/segment_table_manager.py:171-199 | with the filter an entry selects exactly the segments of its class pass, and with "All Classes" every segment passes |
| SegmentTable.Retag | src/lazylabel/ui/managers/segment_table_manager.py:483-485 | every item that knows its segment is told the new index and the others stay |
| SegmentTable.ShiftedItemsSpec | src/lazylabel/ui/managers/segment_table_manager.py:478-489 | the deleted key goes, lower keys keep their items and higher keys move down by one with their items retagged |
| SegmentTable.ShiftKeepsTags | src/lazylabel/ui/managers/segment_table_manager.py:478-489 | items filed under their segment's index stay so after deleting a segment, with keys below the new count |
| SegmentTable.ShiftStep | src/lazylabel/ui/managers/segment_table_manager.py:479-488 | handling one more old key files its items under their new key, and the deleted key adds nothing |
| SegmentTable.ShiftSegmentItems | src/lazylabel/ui/managers/segment_table_manager.py:478-489 | the rebuilding loop over the old keys computes exactly the shifted dict |
| SegmentTable.ShiftOne | src/lazylabel/ui/managers/segment_table_manager.py:480-487 | one pass of the loop extends the shifted dict by one old key |
| SegmentTable.RowFor | src/lazylabel/ui/managers/segment_table_manager.py:275-280 | the first row storing the index, none when no row stores it |
| SegmentTable.ShiftCells | src/lazylabel/ui/managers/segment_table_manager.py:287-296 | every row is handled in place by the shifting rule |
| SegmentTable.KeptRows | src/lazylabel/ui/managers/segment_table_manager.py:282-284 | one row fewer exactly when a row stores the removed index |
| SegmentTable.KeptRowsSpec | src/lazylabel/ui/managers/segment_table_manager.py:282-284 | taking out the row of the removed segment takes out every row of it, keeping the table consistent |
| SegmentTable.ShiftCellsSpec | src/lazylabel/ui/managers/segment_table_manager.py:287-296 | renumbering a table without the removed segment keeps every label matching its stored index and no index stored twice |
| SegmentTable.ShiftCellAt | src/lazylabel/ui/managers/segment_table_manager.py:289-296 | one cell keeps or lacks its stored index, holds the shifted index and shows its new 1-based number |
| SegmentTable.RemovedRowsSpec | src/lazylabel/ui/managers/segment_table_manager.py:262-298 | after removing a segment's row the table is consistent, the row is gone and every other row is an old row renumbered and showing its new number |
| SegmentTable.DescendingRemovals | src/lazylabel/ui/managers/segment_table_manager.py:412-422 | removing in descending order lowers every surviving index by the number of removed indices below it and removes exactly the removed ones |
| SegmentTable.AscendingRemovalsGoWrong | src/lazylabel/ui/managers/segment_table_manager.py:414 | in ascending order the same steps would drop segment 5 for removals 1 and 4 |
| SegmentTable.RowForPrefix | src/lazylabel/ui/managers/segment_table_manager.py:276-280 | a row found in a prefix is the first row found in the whole table |
| SegmentTable.SegmentTableState.constructor | src/lazylabel/ui/managers/segment_table_manager.py:262-298 | an empty table and no scene items |
| SegmentTable.SegmentTableState.RemoveRowFromTable | src/lazylabel/ui/managers/segment_table_manager.py:262-298 | the table becomes the removed-row specification |
| SegmentTable.SegmentTableState.ShiftSegmentItemsAfterDeletion | src/lazylabel/ui/managers/segment_table_manager.py:476-489 | the scene items become the shifted dict |
| SegmentTable.RemoveRowLoops | src/lazylabel/ui/managers/segment_table_manager.py:273-296 | the two loops compute exactly the removed-row specification |
| SegmentTable.FindRow | src/lazylabel/ui/managers/segment_table_manager.py:275-280 | the finding loop returns the first row storing the index |
| SegmentTable.ShiftRows | src/lazylabel/ui/managers/segment_table_manager.py:287-296 | the shifting loop computes exactly the shifted cells |
| SegmentTable.FilterId | src/lazylabel/ui/managers/segment_table_manager.py:175-181 | The text after the last colon, stripped, or else the last word, read as an integer; None where int() or the indexing raises. SegmentTable.CurrentTableFilter and the round-trip lemmas build on it. |
| SegmentTable.FilterEntry | src/lazylabel/ui/managers/segment_table_manager.py:376 | "alias: id" for an aliased class, "Class id" otherwise. SegmentTable.FilterEntryRoundTrip proves that the filter reads the id back from either form. |
| SegmentTable.ColonSpaceSplit | src/lazylabel/ui/managers/segment_table_manager.py:376 | The aliased entry is the alias and a colon, followed by a space and the number. |
| SegmentTable.WordAfterSpace | src/lazylabel/ui/managers/segment_table_manager.py:179 | The last word of a text ending in a space and a run of non-spaces is that run. |
| SegmentTable.OldKey | src/lazylabel/ui/managers/segment_table_manager.py:481-487 | The old key whose items land under key k: k itself below the deleted index, k + 1 from it on. |
| SegmentTable.Lowered | src/lazylabel/ui/managers/segment_table_manager.py:484 | Every key lowered by one. |
| SegmentTable.LoweredHas | src/lazylabel/ui/managers/segment_table_manager.py:484 | A key is among the lowered keys when one above it is a key. |
| SegmentTable.ShiftedItems | src/lazylabel/ui/managers/segment_table_manager.py:476-489 | The single-view segment_items after a deletion: the deleted key goes, and later keys move down one and are re-tagged. SegmentTable.ShiftedItemsSpec and SegmentTable.ShiftKeepsTags state this. |
| SegmentTable.ItemsTagged | src/lazylabel/ui/managers/segment_table_manager.py:483-485 | Every item that can learn its segment index carries the key it is filed under. SegmentTable.ShiftKeepsTags proves the shift keeps this. |
| SegmentTable.Restrict | src/lazylabel/ui/managers/segment_table_manager.py:480-487 | The entries under the old keys the loop has handled so far. |
| SegmentTable.NewKey | src/lazylabel/ui/managers/segment_table_manager.py:481-487 | The key the items of old key k move to: k - 1 above the deleted index, k below it. |
| SegmentTable.ShiftedItemsHas | src/lazylabel/ui/managers/segment_table_manager.py:478-489 | The shift keeps key m exactly when its old key was present. |
| SegmentTable.ShiftStepKeys | src/lazylabel/ui/managers/segment_table_manager.py:480-487 | Handling one more old key adds its new key, unless it is the deleted segment's. |
| SegmentTable.ShiftStepValues | src/lazylabel/ui/managers/segment_table_manager.py:480-487 | Handling one more old key files its items, re-tagged when they move, and leaves the entries already built as they were. |
| SegmentTable.ShiftStepValueAt | src/lazylabel/ui/managers/segment_table_manager.py:480-487 | The same property as SegmentTable.ShiftStepValues, for one key of the result. |
| SegmentTable.StoresIndex | src/lazylabel/ui/managers/segment_table_manager.py:277-279 | The row's cell exists and stores the segment index. |
| SegmentTable.ShiftCell | src/lazylabel/ui/managers/segment_table_manager.py:287-296 | A cell storing an index above the deleted one stores the index less one and shows the new 1-based number; any other row is unchanged. SegmentTable.ShiftCellAt states this. |
| SegmentTable.RemovedRows | src/lazylabel/ui/managers/segment_table_manager.py:262-298 | The table after remove_row_from_segment_table: the row of the deleted segment goes, and later rows are renumbered. SegmentTable.RemovedRowsSpec proves that the table stays consistent. |
| SegmentTable.Labelled | src/lazylabel/ui/managers/segment_table_manager.py:294-296 | Each cell shows its stored index as a 1-based row number. |
| SegmentTable.UniqueIndices | src/lazylabel/ui/managers/segment_table_manager.py:275-280 | No two rows store the same segment index. |
| SegmentTable.ShiftIndex | src/lazylabel/ui/managers/segment_table_manager.py:287-296 | Where a segment's row ends up after deleting d: gone for d, one lower above d, unchanged below. |
| SegmentTable.KeptSource | src/lazylabel/ui/managers/segment_table_manager.py:282-284 | The old row that row k was before row i was taken out. |
| SegmentTable.ShiftThrough | src/lazylabel/ui/managers/segment_table_manager.py:412-422 | The stored index after each removal of the list in turn; None once the segment itself is removed. SegmentTable.DescendingRemovals gives its value. |
| SegmentTable.CountLess | src/lazylabel/ui/managers/segment_table_manager.py:412-422 | How many removed indices lie below i. |
| SegmentTable.StrictlyDecreasing | src/lazylabel/ui/managers/segment_table_manager.py:414 | sorted(removed_indices, reverse=True) without repeats: strictly decreasing. |
| SegmentTable.CountLessAll | src/lazylabel/ui/managers/segment_table_manager.py:412-422 | When every removed index lies below i, all of them count. |
| SegmentTable.PickKey | src/lazylabel/ui/managers/segment_table_manager.py:480 | A non-empty key set has a member for the loop to take. |
| SequenceView.ClearedStatuses | src/lazylabel/ui/modes/sequence_view_mode.py:141-146 | every frame keeps its entry; REFERENCE and SKIPPED survive and every other status becomes PENDING |
| SequenceView.AllPending | src/lazylabel/ui/modes/sequence_view_mode.py:128-129 | one PENDING status per frame, inserted in frame order |
| SequenceView.ResetStatuses | src/lazylabel/ui/modes/sequence_view_mode.py:141-146 | the status loop keeps the dict order and leaves exactly the cleared statuses |
| SequenceView.SkippedStatuses | src/lazylabel/ui/modes/sequence_view_mode.py:450-452 | frames in the set and inside the timeline become SKIPPED and all others keep their status |
| SequenceView.SkipStatuses | src/lazylabel/ui/modes/sequence_view_mode.py:450-452 | the skipping loop keeps the dict order and leaves exactly the skipped statuses |
| SequenceView.Captured | src/lazylabel/ui/modes/sequence_view_mode.py:234-253 | at most one annotation per segment |
| SequenceView.CapturedSpec | src/lazylabel/ui/modes/sequence_view_mode.py:240-251 | every captured annotation is on the frame, takes its segment's 1-based position as object id, its mask and its class (0 when missing); every masked segment yields one; object ids increase |
| SequenceView.CaptureAnnotations | src/lazylabel/ui/modes/sequence_view_mode.py:236-253 | the capture loop returns exactly the captured annotations |
| SequenceView.FramesInOrder | src/lazylabel/ui/modes/sequence_view_mode.py:350-364 | the frames listed are distinct and exactly those with the status |
| SequenceView.NextFlagged | src/lazylabel/ui/modes/sequence_view_mode.py:366-377 | none exactly when nothing is flagged; otherwise a flagged frame, the least one after the current frame, or the least of all when none lies after it |
| SequenceView.PrevFlagged | src/lazylabel/ui/modes/sequence_view_mode.py:379-390 | none exactly when nothing is flagged; otherwise a flagged frame, the greatest one before the current frame, or the greatest of all when none lies before it |
| SequenceView.NextFromSorted | src/lazylabel/ui/modes/sequence_view_mode.py:370-373 | the forward scan over the sorted flagged frames stops at the next flagged frame |
| SequenceView.NextWrapsFromSorted | src/lazylabel/ui/modes/sequence_view_mode.py:375-377 | when no sorted flagged frame lies after the current one the result wraps to the first, none when the list is empty |
| SequenceView.PrevFromSorted | src/lazylabel/ui/modes/sequence_view_mode.py:383-386 | the backward scan stops at the previous flagged frame |
| SequenceView.PrevWrapsFromSorted | src/lazylabel/ui/modes/sequence_view_mode.py:388-390 | when no flagged frame lies before the current one the result wraps to the last, none when the list is empty |
| SequenceView.ScanNext | src/lazylabel/ui/modes/sequence_view_mode.py:366-377 | the forward scan returns the next flagged frame with wrap-around |
| SequenceView.ScanPrev | src/lazylabel/ui/modes/sequence_view_mode.py:379-390 | the backward scan returns the previous flagged frame with wrap-around |
| SequenceView.RangeFor | src/lazylabel/ui/modes/sequence_view_mode.py:432-441 | (0, 0) without a reference; forward starts at the reference and backward ends at it; the range never starts below 0 and, except for backward, never ends past the last frame or the requested end |
| SequenceView.RangeCoversReference | src/lazylabel/ui/modes/sequence_view_mode.py:432-441 | a reference inside the requested range and the timeline lies inside the propagation range for every direction |
| SequenceView.KeptFrames | src/lazylabel/ui/modes/sequence_view_mode.py:471 | the kept frames are increasing and exactly the timeline frames not removed |
| SequenceView.KeptNone | src/lazylabel/ui/modes/sequence_view_mode.py:471 | removing no existing frame keeps every frame |
| SequenceView.RemovedPaths | src/lazylabel/ui/modes/sequence_view_mode.py:475 | the removed paths are collected exactly when no listed index below the frame count is below minus the count, with at most one path per index |
| SequenceView.PathsAt | src/lazylabel/ui/modes/sequence_view_mode.py:481 | the paths at the listed positions, in order |
| SequenceView.RemovedPathsInRange | src/lazylabel/ui/modes/sequence_view_mode.py:475 | with every removed index inside the timeline the removed paths are those frames' paths in index order |
| SequenceView.Position | src/lazylabel/ui/modes/sequence_view_mode.py:478 | the new index of a kept frame points back at it |
| SequenceView.PositionUnique | src/lazylabel/ui/modes/sequence_view_mode.py:478 | in an increasing list old_to_new inverts keep |
| SequenceView.RenameKeys | src/lazylabel/ui/modes/sequence_view_mode.py:491-498 | a renumbered key exists exactly for each kept frame that had one, and distinct keys stay distinct |
| SequenceView.Retag | src/lazylabel/ui/modes/sequence_view_mode.py:495-496 | every annotation keeps its contents and moves to the new frame |
| SequenceView.Nearest | src/lazylabel/ui/modes/sequence_view_mode.py:524 | the position of a kept frame nearest the current one, the first of those at minimal distance |
| SequenceView.NearestOfKept | src/lazylabel/ui/modes/sequence_view_mode.py:520-521 | a kept current frame stays current at its new index |
| SequenceView.RenumberMap | src/lazylabel/ui/modes/sequence_view_mode.py:501-512 | a renumbered entry exists exactly for each kept frame that had one, with that frame's value |
| SequenceView.RenumberSet | src/lazylabel/ui/modes/sequence_view_mode.py:515-517 | a renumbered frame is in the set exactly when its kept old frame was |
| SequenceView.RenumberAnnotations | src/lazylabel/ui/modes/sequence_view_mode.py:491-498 | renumbered annotation lists exist exactly for kept reference frames and are retagged with their new frame |
| SequenceView.RenumberRefs | src/lazylabel/ui/modes/sequence_view_mode.py:491-498 | the references keep their old order under the new keys, exactly for kept frames, retagged with their new frame |
| SequenceView.NewCurrent | src/lazylabel/ui/modes/sequence_view_mode.py:520-525 | the new current frame is a valid new index |
| SequenceView.NewCurrentIsNearest | src/lazylabel/ui/modes/sequence_view_mode.py:520-525 | whether or not the current frame was kept, the new current frame is the first kept frame nearest the old one |
| SequenceView.RenumberStatuses | src/lazylabel/ui/modes/sequence_view_mode.py:484-488 | new frames 0 to k-1 in order, each with its old frame's status, PENDING when it had none |
| SequenceView.SequenceViewMode.constructor | src/lazylabel/ui/modes/sequence_view_mode.py:60-81 | no frames, references, masks, scores, dimensions or skipped frames, threshold 0.99 and auto-flagging on |
| SequenceView.SequenceViewMode.PrimaryReferenceIdx | src/lazylabel/ui/modes/sequence_view_mode.py:97-101 | -1 exactly when there is no reference, else the first reference set, a frame of the timeline |
| SequenceView.SequenceViewMode.HasReference | src/lazylabel/ui/modes/sequence_view_mode.py:415-417 | true exactly when some reference is set, that is when the primary reference is not -1 |
| SequenceView.SequenceViewMode.SetImagePaths | src/lazylabel/ui/modes/sequence_view_mode.py:112-129 | the paths are replaced, frame 0 is current, nothing is recorded and every frame is PENDING in order; threshold and auto-flag survive |
| SequenceView.SequenceViewMode.ClearPropagationResults | src/lazylabel/ui/modes/sequence_view_mode.py:131-147 | masks and scores go, REFERENCE and SKIPPED survive and every other status becomes PENDING |
| SequenceView.SequenceViewMode.ImagePath | src/lazylabel/ui/modes/sequence_view_mode.py:149-153 | the frame's path exactly when the index is inside the timeline |
| SequenceView.SequenceViewMode.FrameIdxForPath | src/lazylabel/ui/modes/sequence_view_mode.py:155-171 | the first frame whose normalised path equals the normalised argument, none when no frame matches |
| SequenceView.SequenceViewMode.SetCurrentFrame | src/lazylabel/ui/modes/sequence_view_mode.py:173-182 | accepted exactly inside the timeline, and only then the current frame changes |
| SequenceView.SequenceViewMode.SetReferenceFrame | src/lazylabel/ui/modes/sequence_view_mode.py:196-232 | refused with nothing changed outside the timeline or on a dimension mismatch; otherwise the first dimensions are recorded and the given or captured annotations are stored with the frame REFERENCE |
| SequenceView.SequenceViewMode.ClearReferenceFrame | src/lazylabel/ui/modes/sequence_view_mode.py:255-274 | succeeds exactly for a reference frame, which becomes PENDING; the dimensions go with the last reference; otherwise nothing changes |
| SequenceView.SequenceViewMode.MarkFramePropagated | src/lazylabel/ui/modes/sequence_view_mode.py:276-306 | masks are merged over the frame's old ones, the frame keeps the lowest confidence, and it is FLAGGED exactly when auto-flag is on and that confidence is below the threshold, PROPAGATED otherwise |
| SequenceView.SequenceViewMode.MergeFrameMasks | src/lazylabel/ui/modes/sequence_view_mode.py:289-292 | the new masks win, the frame's other old masks stay and no other frame changes |
| SequenceView.SequenceViewMode.LowerFrameScore | src/lazylabel/ui/modes/sequence_view_mode.py:295-298 | the frame's score becomes the minimum of the old one and the new confidence, or the confidence when it had none |
| SequenceView.SequenceViewMode.FlagFrame | src/lazylabel/ui/modes/sequence_view_mode.py:308-312 | a timeline frame becomes FLAGGED and nothing else changes |
| SequenceView.SequenceViewMode.UnflagFrame | src/lazylabel/ui/modes/sequence_view_mode.py:314-321 | the frame becomes PROPAGATED when it has masks, else PENDING |
| SequenceView.SequenceViewMode.MarkFrameSaved | src/lazylabel/ui/modes/sequence_view_mode.py:323-330 | a timeline frame becomes SAVED and loses its masks; outside the timeline nothing changes |
| SequenceView.SequenceViewMode.PropagatedMasks | src/lazylabel/ui/modes/sequence_view_mode.py:332-334 | the frame's masks exactly when it has some |
| SequenceView.SequenceViewMode.ClearPropagatedMask | src/lazylabel/ui/modes/sequence_view_mode.py:336-344 | the frame's masks and score go and nothing else changes |
| SequenceView.SequenceViewMode.ConfidenceScore | src/lazylabel/ui/modes/sequence_view_mode.py:346-348 | the frame's score, 0.0 when it has none |
| SequenceView.SequenceViewMode.FlaggedFrames | src/lazylabel/ui/modes/sequence_view_mode.py:350-356 | exactly the FLAGGED frames, each once |
| SequenceView.SequenceViewMode.PropagatedFrames | src/lazylabel/ui/modes/sequence_view_mode.py:358-364 | exactly the PROPAGATED frames, each once |
| SequenceView.SequenceViewMode.NextFlaggedFrame | src/lazylabel/ui/modes/sequence_view_mode.py:366-377 | the next flagged frame after the current one with wrap-around |
| SequenceView.SequenceViewMode.PrevFlaggedFrame | src/lazylabel/ui/modes/sequence_view_mode.py:379-390 | the previous flagged frame before the current one with wrap-around |
| SequenceView.SequenceViewMode.SetConfidenceThreshold | src/lazylabel/ui/modes/sequence_view_mode.py:392-394 | the threshold is clamped to between 0 and 1 and nothing else changes |
| SequenceView.SequenceViewMode.SetAutoFlagEnabled | src/lazylabel/ui/modes/sequence_view_mode.py:396-398 | only the auto-flag setting changes |
| SequenceView.SequenceViewMode.ReferenceAnnotations | src/lazylabel/ui/modes/sequence_view_mode.py:400-413 | the frame's annotations, the primary reference's when no frame is given, none for a frame that is not a reference |
| SequenceView.SequenceViewMode.PropagationRange | src/lazylabel/ui/modes/sequence_view_mode.py:419-441 | the range for the primary reference over the timeline |
| SequenceView.SequenceViewMode.MarkFramesSkipped | src/lazylabel/ui/modes/sequence_view_mode.py:443-453 | the skipped set is replaced and its timeline frames become SKIPPED |
| SequenceView.SequenceViewMode.RenumberFrames | src/lazylabel/ui/modes/sequence_view_mode.py:481-488 | paths and statuses are renumbered 0 to k-1 in their old order |
| SequenceView.SequenceViewMode.RenumberAttached | src/lazylabel/ui/modes/sequence_view_mode.py:491-529 | references, masks, scores and skipped marks follow their frames, dimensions go without references and the current frame moves to its new index |
| SequenceView.SequenceViewMode.RenumberReferences | src/lazylabel/ui/modes/sequence_view_mode.py:491-498 | the references are renumbered and the dimensions go when none is left |
| SequenceView.SequenceViewMode.RenumberFrameData | src/lazylabel/ui/modes/sequence_view_mode.py:501-525 | masks, scores, skipped marks and the current frame are renumbered |
| SequenceView.SequenceViewMode.Rebuild | src/lazylabel/ui/modes/sequence_view_mode.py:478-529 | the whole state is renumbered through old_to_new and the kept current frame or its nearest kept frame becomes current |
| SequenceView.SequenceViewMode.TrimFrames | src/lazylabel/ui/modes/sequence_view_mode.py:455-531 | fails with nothing changed when no frame would remain or a removed index raises; otherwise returns the removed paths and renumbers every part of the state to the kept frames |
| SequenceView.StatusIn | src/lazylabel/ui/modes/sequence_view_mode.py:189 | A frame's status, PENDING when the dict has none. |
| SequenceView.Kept | src/lazylabel/ui/modes/sequence_view_mode.py:142-145 | REFERENCE and SKIPPED are the statuses clear_propagation_results leaves. |
| SequenceView.FramesWith | src/lazylabel/ui/modes/sequence_view_mode.py:350-364 | The frames that hold a given status. SequenceView.FramesInOrder lists exactly these, each once. |
| SequenceView.MinIs | src/lazylabel/ui/modes/sequence_view_mode.py:370-373 | The element of a set below all others is its minimum. |
| SequenceView.MaxIs | src/lazylabel/ui/modes/sequence_view_mode.py:383-386 | The element of a set above all others is its maximum. |
| SequenceView.MinReal | src/lazylabel/ui/modes/sequence_view_mode.py:294 | min of two confidence scores. |
| SequenceView.MinInt | src/lazylabel/ui/modes/sequence_view_mode.py:437-441 | min of two frame indices. |
| SequenceView.MaxInt | src/lazylabel/ui/modes/sequence_view_mode.py:441 | max of two frame indices. |
| SequenceView.Clamp01 | src/lazylabel/ui/modes/sequence_view_mode.py:394 | The threshold clamped into [0, 1]: unchanged inside, 0 below, 1 above. |
| SequenceView.DistanceTo | src/lazylabel/ui/modes/sequence_view_mode.py:524 | abs(k - current). |
| SequenceView.SequenceViewMode.FrameStatusOf | src/lazylabel/ui/modes/sequence_view_mode.py:184-190 | get_frame_status: the frame's status, PENDING for a frame without one. |
| SingleViewViewModel.SetModes | src/lazylabel/viewmodels/single_view_viewmodel.py:127-142 | the same mode changes nothing, and a new mode becomes current with the old one as previous |
| SingleViewViewModel.ToggleModes | src/lazylabel/viewmodels/single_view_viewmodel.py:144-160 | it reports the mode that ends up current; toggling another mode switches to it, and toggling the current one goes back to the previous mode |
| SingleViewViewModel.ToggleTwice | src/lazylabel/viewmodels/single_view_viewmodel.py:144-160 | toggling the same other mode twice returns to the starting mode, with the toggled mode as previous |
| SingleViewViewModel.ToggleFixedPoint | src/lazylabel/viewmodels/single_view_viewmodel.py:153-156 | toggling the current mode when its previous mode is itself changes nothing |
| SingleViewViewModel.ModeKindsDisjoint | src/lazylabel/viewmodels/single_view_viewmodel.py:166-172 | no mode is both an AI mode and a drawing mode, and the default mode is an AI mode |
| SingleViewViewModel.SingleViewViewModel.constructor | src/lazylabel/viewmodels/single_view_viewmodel.py:34-55 | no image, not loading, both modes the default, no file index and no events |
| SingleViewViewModel.SingleViewViewModel.SetImage | src/lazylabel/viewmodels/single_view_viewmodel.py:60-76 | the current path changes nothing; any other path is stored and announces a change for a non-empty path or a clear for None or "" |
| SingleViewViewModel.SingleViewViewModel.HasImage | src/lazylabel/viewmodels/single_view_viewmodel.py:78-80 | true exactly when a path is stored, the empty one included |
| SingleViewViewModel.SingleViewViewModel.GetImageFilename | src/lazylabel/viewmodels/single_view_viewmodel.py:82-92 | none exactly without a non-empty path, else the part of the path after its last slash |
| SingleViewViewModel.SingleViewViewModel.SetLoading | src/lazylabel/viewmodels/single_view_viewmodel.py:97-117 | the flag is stored, and a start or finish is announced only when it changes |
| SingleViewViewModel.SingleViewViewModel.SetMode | src/lazylabel/viewmodels/single_view_viewmodel.py:127-142 | the mode pair follows the set-mode rule, and (old, new) is announced only for a new mode |
| SingleViewViewModel.SingleViewViewModel.ToggleMode | src/lazylabel/viewmodels/single_view_viewmodel.py:144-160 | the mode pair and the reported mode follow the toggle rule |
| SingleViewViewModel.SingleViewViewModel.IsMode | src/lazylabel/viewmodels/single_view_viewmodel.py:162-164 | true exactly for the current mode |
| SingleViewViewModel.SingleViewViewModel.IsAiMode | src/lazylabel/viewmodels/single_view_viewmodel.py:166-168 | true exactly for sam_points and ai |
| SingleViewViewModel.SingleViewViewModel.IsDrawingMode | src/lazylabel/viewmodels/single_view_viewmodel.py:170-172 | true exactly for polygon and bbox |
| SingleViewViewModel.SingleViewViewModel.SetFileIndex | src/lazylabel/viewmodels/single_view_viewmodel.py:181-187 | the file index is stored |
| SingleViewViewModel.SingleViewViewModel.Reset | src/lazylabel/viewmodels/single_view_viewmodel.py:191-198 | back to no image, not loading, default modes and no file index, with a clear announced |
| SingleViewViewModel.IsAiModeName | src/lazylabel/viewmodels/single_view_viewmodel.py:166-168 | The AI modes: "sam_points" and "ai". SingleViewViewModel.ModeKindsDisjoint proves that no mode is both an AI mode and a drawing mode. |
| SingleViewViewModel.IsDrawingModeName | src/lazylabel/viewmodels/single_view_viewmodel.py:170-172 | The drawing modes: "polygon" and "bbox". |
| SingleViewViewModel.SingleViewViewModel.ModePair | src/lazylabel/viewmodels/single_view_viewmodel.py:127-160 | The current and previous mode together, the state that SingleViewViewModel.SetModes and SingleViewViewModel.ToggleModes describe. |
| Text.IsDigit | src/lazylabel/ui/managers/segment_table_manager.py:177-179 | An ASCII decimal digit. |
| Text.IsSpace | src/lazylabel/ui/managers/segment_table_manager.py:177-179 | The ASCII whitespace that str.strip and str.split remove. |
| Text.DigitChar | src/lazylabel/core/segment_manager.py:307 | The character of a digit below 10, a digit and no space. |
| Text.DigitValue | src/lazylabel/ui/managers/segment_table_manager.py:177-179 | The value of a digit character, below 10, whose character is that digit. |
| Text.NatToString | src/lazylabel/core/segment_manager.py:307 | str of a natural number: a non-empty run of digits. Text.NatToStringValue proves it reads back as the number. |
| Text.IntToString | src/lazylabel/core/segment_manager.py:307 | str(i): digits with an optional leading minus. Text.IntToStringRoundTrip proves that int(str(i)) == i. |
| Text.StripLeft | src/lazylabel/ui/managers/segment_table_manager.py:177 | The longest suffix that does not start with a space. |
| Text.StripRight | src/lazylabel/ui/managers/segment_table_manager.py:177 | The longest prefix that does not end with a space. |
| Text.Strip | src/lazylabel/ui/managers/segment_table_manager.py:177 | str.strip(): both sides stripped. Text.StripAround and Text.StripNoSpace state its effect. |
| Text.DigitBody | src/lazylabel/ui/managers/segment_table_manager.py:177-179 | Digits with single underscores between them, as int() accepts. |
| Text.BodyValue | src/lazylabel/ui/managers/segment_table_manager.py:177-179 | The decimal value of a digit body, with the underscores skipped. |
| Text.ParseUnsigned | src/lazylabel/ui/managers/segment_table_manager.py:177-179 | The value of a digit body, and None for any other text. |
| Text.ParseInt | src/lazylabel/ui/managers/segment_table_manager.py:177-181 | int(s): surrounding whitespace ignored, an optional sign, a digit body, and None where int() raises ValueError. Text.IntToStringRoundTrip and Text.IntToStringPadded prove that it reads back what str writes. |
| Text.NatToStringValue | src/lazylabel/core/segment_manager.py:307 | The digits of a natural number form a digit body whose value is the number. |
| Text.StripNoSpace | src/lazylabel/ui/managers/segment_table_manager.py:177 | Text that neither starts nor ends with a space is its own strip. |
| Text.IntToStringRoundTrip | src/lazylabel/ui/managers/segment_table_manager.py:177-179 | int(str(i)) == i for every integer. |
| Text.IntToStringPadded | src/lazylabel/ui/managers/segment_table_manager.py:177 | int ignores whitespace around the printed number. |
| Text.StripLeftSpaces | src/lazylabel/ui/managers/segment_table_manager.py:177 | Stripping the left side removes exactly a leading run of spaces. |
| Text.StripRightSpaces | src/lazylabel/ui/managers/segment_table_manager.py:177 | Stripping the right side removes exactly a trailing run of spaces. |
| Text.StripAround | src/lazylabel/ui/managers/segment_table_manager.py:177 | Spaces around a text do not change its strip. |
| Text.AfterLast | src/lazylabel/ui/managers/segment_table_manager.py:177 | split(c)[-1]: the suffix after the last c, holding no c, and the whole text when c does not occur. |
| Text.AfterLastSuffix | src/lazylabel/ui/managers/segment_table_manager.py:177 | After a part ending in c, a c-free rest is what split(c)[-1] returns. |
| Timeline.Priority | src/lazylabel/ui/widgets/timeline_widget.py:43-50 | every status has a priority between 0 and 5 and pending has 3 |
| Timeline.WithPrioritySpec | src/lazylabel/ui/widgets/timeline_widget.py:99-110 | the frames of one priority are exactly the frames below the count with that priority, in increasing order |
| Timeline.BucketsSpec | src/lazylabel/ui/widgets/timeline_widget.py:99-110 | the buckets below a priority hold exactly the frames of lower priority, sorted by priority and then index |
| Timeline.SortedConcat | src/lazylabel/ui/widgets/timeline_widget.py:99-110 | two lists sorted by the key stay sorted when concatenated and every frame of the first precedes every frame of the second |
| Timeline.BucketsGrow | src/lazylabel/ui/widgets/timeline_widget.py:99-110 | one more frame joins the bucket of its priority and the others are unchanged |
| Timeline.BucketsPermute | src/lazylabel/ui/widgets/timeline_widget.py:99-110 | once every priority is included the buckets hold each frame exactly once |
| Timeline.StatusOrderSpec | src/lazylabel/ui/widgets/timeline_widget.py:99-110 | the sorted display order is a permutation of the frames, without repeats, sorted by status priority (missing means pending) and then by index |
| Timeline.StatusOrderUnsorted | src/lazylabel/ui/widgets/timeline_widget.py:99-110 | without statuses the sort keeps the natural order |
| Timeline.RankOfIndex | src/lazylabel/ui/widgets/timeline_widget.py:86-90 | an increasing list of all frames below n holds each frame at its own position |
| Timeline.ReverseOfSpec | src/lazylabel/ui/widgets/timeline_widget.py:92-97 | the reverse lookup knows exactly the listed frames and sends each to a position holding it |
| Timeline.ReverseOfInverse | src/lazylabel/ui/widgets/timeline_widget.py:92-97 | for an order without repeats the reverse lookup is its inverse |
| Timeline.IdentityIsReverse | src/lazylabel/ui/widgets/timeline_widget.py:86-90 | the identity map is the reverse lookup of the natural order |
| Timeline.FramesWith | src/lazylabel/ui/widgets/timeline_widget.py:163-179 | the frames listed are distinct and exactly those with the status |
| Timeline.StoreBatchSpec | src/lazylabel/ui/widgets/timeline_widget.py:151-156 | after a batch a frame's status is the batch's when the frame is inside the timeline and the old one otherwise |
| Timeline.TimelineWidget.constructor | src/lazylabel/ui/widgets/timeline_widget.py:52-74 | no frames, frame 0 current, no statuses, names or scores, an empty order and unsorted |
| Timeline.TimelineWidget.SetFrameCount | src/lazylabel/ui/widgets/timeline_widget.py:76-84 | a negative count becomes 0; statuses, names and scores go and the natural order is restored |
| Timeline.TimelineWidget.ResetDisplayOrder | src/lazylabel/ui/widgets/timeline_widget.py:86-90 | the order is natural, the reverse lookup is the identity and the sorted flag is off |
| Timeline.TimelineWidget.SortByStatus | src/lazylabel/ui/widgets/timeline_widget.py:99-110 | the display order becomes the status order and the reverse lookup its inverse, and the sorted flag is on |
| Timeline.TimelineWidget.ResetSort | src/lazylabel/ui/widgets/timeline_widget.py:112-117 | the natural order is restored and the sorted flag is off |
| Timeline.TimelineWidget.SetFrameNames | src/lazylabel/ui/widgets/timeline_widget.py:122-124 | the names are replaced |
| Timeline.TimelineWidget.SetConfidenceScores | src/lazylabel/ui/widgets/timeline_widget.py:126-128 | the scores are replaced |
| Timeline.TimelineWidget.SetCurrentFrame | src/lazylabel/ui/widgets/timeline_widget.py:130-134 | an index inside the timeline becomes current and any other is ignored |
| Timeline.TimelineWidget.SetFrameStatus | src/lazylabel/ui/widgets/timeline_widget.py:136-149 | an index inside the timeline gets the status and any other is ignored |
| Timeline.TimelineWidget.SetBatchStatuses | src/lazylabel/ui/widgets/timeline_widget.py:151-156 | every in-range entry of the batch is stored and the others are ignored, so each frame ends with the batch status when in range and its old one otherwise |
| Timeline.TimelineWidget.ClearStatuses | src/lazylabel/ui/widgets/timeline_widget.py:158-161 | no status remains |
| Timeline.TimelineWidget.GetReferenceFrames | src/lazylabel/ui/widgets/timeline_widget.py:163-167 | exactly the frames marked reference, all inside the timeline |
| Timeline.TimelineWidget.GetPropagatedFrames | src/lazylabel/ui/widgets/timeline_widget.py:169-173 | exactly the frames marked propagated, all inside the timeline |
| Timeline.TimelineWidget.GetFlaggedFrames | src/lazylabel/ui/widgets/timeline_widget.py:175-179 | exactly the frames marked flagged, all inside the timeline |
| Timeline.PriorityOf | src/lazylabel/ui/widgets/timeline_widget.py:104 | The sort key's first part: the priority of the frame's status, a frame without a status counting as pending. |
| Timeline.KeyBefore | src/lazylabel/ui/widgets/timeline_widget.py:103-106 | The tuple order of (priority, idx) that sorted uses. |
| Timeline.SortedByKey | src/lazylabel/ui/widgets/timeline_widget.py:101-107 | The list is strictly sorted by the key. Timeline.StatusOrderSpec proves this of the status order. |
| Timeline.WithPriority | src/lazylabel/ui/widgets/timeline_widget.py:101-107 | The frames below n of one priority, in index order. Timeline.WithPrioritySpec states its contents. |
| Timeline.Buckets | src/lazylabel/ui/widgets/timeline_widget.py:101-107 | The frames of priority below k, priority by priority. Timeline.BucketsSpec and Timeline.BucketsPermute state its contents. |
| Timeline.StatusOrder | src/lazylabel/ui/widgets/timeline_widget.py:99-110 | The display order sort_by_status computes. Timeline.StatusOrderSpec proves it is a sorted permutation of the frames. |
| Timeline.RangeSnoc | src/lazylabel/ui/widgets/timeline_widget.py:102 | range(n) is range(n - 1) with n - 1 added, as multisets. |
| Timeline.BucketsEmpty | src/lazylabel/ui/widgets/timeline_widget.py:102 | A timeline without frames has empty buckets. |
| Timeline.ReverseOf | src/lazylabel/ui/widgets/timeline_widget.py:92-97 | The reverse lookup from real index to display position; a later position overwrites an earlier one. Timeline.ReverseOfSpec and Timeline.ReverseOfInverse state what it maps. |
| Timeline.StoreBatch | src/lazylabel/ui/widgets/timeline_widget.py:151-156 | The statuses after storing the batch in its order, skipping frames outside the timeline; the dict stays well formed. Timeline.StoreBatchSpec states each frame's status. |
| Timeline.TimelineWidget.IsSorted | src/lazylabel/ui/widgets/timeline_widget.py:118-120 | is_sorted: whether the status order is shown. |
| UndoRedo.AddAllAppends | src/lazylabel/core/undo_redo_manager.py:505-515 | re-adding segments that already carry a class appends exactly them, in order, and leaves the point and polygon lists alone |
| UndoRedo.AddAllExtends | src/lazylabel/core/undo_redo_manager.py:563-570 | re-adding any segments keeps every earlier segment unchanged and at its place and grows the list by the number added |
| UndoRedo.Originals | src/lazylabel/core/undo_redo_manager.py:505-515 | the segment of each removed record, one per record, in record order |
| UndoRedo.WriteAll | src/lazylabel/core/undo_redo_manager.py:429-446 | a run of vertex writes never changes how many segments there are or any segment's class |
| UndoRedo.SetVertex | src/lazylabel/core/undo_redo_manager.py:305-324 | a single vertex write never changes the segment's class |
| UndoRedo.AddSegmentUndoRedo | src/lazylabel/core/undo_redo_manager.py:131-168 | undoing a just-added segment removes it and keeps it in the action, and redoing that action puts the same segment back |
| UndoRedo.AddPointRoundTrip | src/lazylabel/core/undo_redo_manager.py:170-193 | For a single-view point click the guards let through: undo then redo gives the world back, with the fresh record on the undo stack and an empty redo stack, when the click's transformed point ends its list. Redo then undo gives the world back, with the action on the undo stack and the fresh record as the only redo. |
| UndoRedo.PolygonPointRoundTrip | src/lazylabel/core/undo_redo_manager.py:230-241 | The same two round trips for a vertex click that does not close the polygon. The re-recorded click equals the original, so undo then redo gives back the undo stack with an empty redo stack, and redo then undo leaves the click on both stacks. |
| UndoRedo.SetVertexTwice | src/lazylabel/core/undo_redo_manager.py:305-324 | two writes to the same vertex equal the second write alone |
| UndoRedo.MoveVertexLastWriteWins | src/lazylabel/core/undo_redo_manager.py:287-326 | after a vertex move is applied, applying it again with another position gives what that position alone gives, so undo/redo of a move alternate the old and new positions |
| UndoRedo.EraseUndoRestores | src/lazylabel/core/undo_redo_manager.py:491-517 | undoing an erase appends the removed segments, unchanged, after the fragments the erase left |
| UndoRedo.EraseUndoThenRedo | src/lazylabel/core/undo_redo_manager.py:519-546 | undo then redo of an erase keeps both actions and leaves the segment list and polygon as they were |
| UndoRedo.EraseRedoThenUndo | src/lazylabel/core/undo_redo_manager.py:519-546 | redo of an erase drops the re-added segments, and undoing it again puts them back |
| UndoRedo.UndoErase | src/lazylabel/core/undo_redo_manager.py:491-517 | Undo of an erase re-adds the originals of the removed records and keeps the action. This is the corrected behaviour of the first Findings row. |
| UndoRedo.RedoErase | src/lazylabel/core/undo_redo_manager.py:519-546 | redo of an erase drops as many trailing segments as were removed and keeps the action |
| UndoRedo.DropLast | src/lazylabel/core/undo_redo_manager.py:530-540 | dropping the last count segments keeps the prefix before them and every other part of the world |
| UndoRedo.DeleteUndoThenRedo | src/lazylabel/core/undo_redo_manager.py:548-600 | undo then redo of a delete keeps the action and leaves the segment list as it was |
| UndoRedo.WrapperAsSegment | src/lazylabel/core/undo_redo_manager.py:505-515 | the record handed to add_segment has no type, class, mask or vertices, only its index entry |
| UndoRedo.UndoEraseAsWrittenLosesSegment | src/lazylabel/core/undo_redo_manager.py:505-515 | as written, the segment re-added by an erase undo is not the erased one: it has no type, mask or vertices |
| UndoRedo.WriteVertexLists | src/lazylabel/core/undo_redo_manager.py:273-285 | the vertex-write loop computes exactly the segment list and the raised flag of the write specification |
| UndoRedo.UndoRedoManager.constructor | src/lazylabel/core/undo_redo_manager.py:22-26 | Both history stacks start empty, and the manager is bound to the given segment store and point-list canvas. |
| UndoRedo.UndoRedoManager.RecordAction | src/lazylabel/core/undo_redo_manager.py:28-36 | the action is pushed on the undo stack with no size bound and the redo stack is emptied |
| UndoRedo.UndoRedoManager.ClearHistory | src/lazylabel/core/undo_redo_manager.py:38-41 | both stacks become empty |
| UndoRedo.UndoRedoManager.Undo | src/lazylabel/core/undo_redo_manager.py:51-88 | Both stacks and the world become UndoRedo.Undone of the old ones: an empty undo stack changes nothing; otherwise the top leaves the undo stack and reaches the redo stack only if its handler keeps it, where an unknown type is dropped. It reports whether the handler raised, and the class aliases are untouched. |
| UndoRedo.UndoRedoManager.UndoHandler | src/lazylabel/core/undo_redo_manager.py:65-86 | The handler for the action just pushed onto the redo stack: the world becomes the undo step's result, and the redo top is replaced by the stored action or dropped, as the step says. |
| UndoRedo.UndoRedoManager.Redo | src/lazylabel/core/undo_redo_manager.py:90-129 | Both stacks and the world become UndoRedo.Redone of the old ones: an empty redo stack changes nothing; otherwise the top moves back to the undo stack if its handler keeps it. A replayed click records itself anew, which empties the redo stack. It reports whether the handler raised. |
| UndoRedo.UndoRedoManager.RedoHandler | src/lazylabel/core/undo_redo_manager.py:104-125 | The handler for the action just pushed onto the undo stack: the world becomes the redo step's result, the undo top is kept or popped as the step says, and a recorded click is pushed and the redo stack emptied. |
| UndoRedo.UndoRedoManager.MoveVertexHandler | src/lazylabel/core/undo_redo_manager.py:287-326 | a move with a missing field or an out-of-range segment leaves the stack it was pushed to; otherwise the position is written as the move step says |
| UndoRedo.UndoRedoManager.UndoAddSegment | src/lazylabel/core/undo_redo_manager.py:131-168 | the recorded segment is deleted when its index is in range and the redo top is replaced by the action holding its copy |
| UndoRedo.UndoRedoManager.WriteEdits | src/lazylabel/core/undo_redo_manager.py:429-446 | the store's segments become the result of the vertex-write specification and nothing else in the world changes |
| UndoRedo.UndoRedoManager.AddSegments | src/lazylabel/core/undo_redo_manager.py:491-517 | The world becomes the re-add specification applied to the records' segments: the corrected behaviour of the first Findings row, which the manager runs. |
| UndoRedo.UndoRedoManager.DropLast | src/lazylabel/core/undo_redo_manager.py:519-546 | the world becomes the drop-last specification for the count |
| UndoRedo.PopLast | src/lazylabel/core/undo_redo_manager.py:182-186 | list.pop() on a non-empty list; an empty list stays empty. |
| UndoRedo.AddOne | src/lazylabel/core/segment_manager.py:28-56 | add_segment on the handlers' state: the segment, given its default class, is appended and becomes the last toggled class. UndoRedo.AddAllAppends and UndoRedo.AddAllExtends state its effect over several calls. |
| UndoRedo.AddAll | src/lazylabel/core/undo_redo_manager.py:505-515 | add_segment for each record in turn. |
| UndoRedo.MoveVertexStep | src/lazylabel/core/undo_redo_manager.py:287-326 | The shared move-vertex handler: a missing field or a segment index past the end drops the action; an index below -len or a failed vertex write raises; otherwise the position is written. UndoRedo.MoveVertexLastWriteWins relates undo and redo of it. |
| UndoRedo.UndoStep | src/lazylabel/core/undo_redo_manager.py:51-88 | What undo does with each action type, per the single-view handlers: the new world, whether the action stays on the redo stack, and whether the handler raised. |
| UndoRedo.DropLastSegments | src/lazylabel/core/undo_redo_manager.py:530-540 | delete_segments of the last count positions. UndoRedo.DropLast proves that this keeps exactly the prefix. |
| UndoRedo.Trunc | src/lazylabel/ui/managers/ai_segment_manager.py:431 | int() of a float: an integer-valued number that truncates toward zero. |
| UndoRedo.PointRecord | src/lazylabel/ui/managers/ai_segment_manager.py:427-435 | The record add_point makes of a click: its polarity and its truncated display position. |
| UndoRedo.AddPointStep | src/lazylabel/ui/managers/ai_segment_manager.py:363-440 | add_point as redo calls it. The readiness guards refuse the click and add no point, though the action stays on the undo stack. A click that passes appends its SAM-transformed position to its list and records itself. |
| UndoRedo.ClearedPoints | src/lazylabel/ui/main_window.py:1854-1859 | clear_all_points in single view: both prompt lists and the polygon are emptied. |
| UndoRedo.PolygonSegment | src/lazylabel/ui/managers/polygon_drawing_manager.py:166-224 | The Polygon segment finalize_polygon makes of the points, without a class. |
| UndoRedo.FinalizePolygon | src/lazylabel/ui/managers/polygon_drawing_manager.py:166-224 | With Shift the polygon erases, and the erase is recorded only when it hit a segment. Otherwise a Polygon segment is added and recorded by its index. All points are cleared in both cases. |
| UndoRedo.PolygonClickStep | src/lazylabel/ui/managers/polygon_drawing_manager.py:68-120 | A click that closes the polygon finalizes it; any other click appends a vertex and records itself. |
| UndoRedo.RedoStep | src/lazylabel/core/undo_redo_manager.py:90-129 | What redo does with each action type, per the single-view handlers. A replayed click goes through the click handler and records itself. A missing point, or the null point (0, 0), drops the action. UndoRedo.RecordedIsKept proves that a recording handler keeps its action. |
| UndoRedo.Undone | src/lazylabel/core/undo_redo_manager.py:51-88 | undo on both stacks: the top leaves the undo stack, and enters the redo stack as the handler leaves it, or not at all. |
| UndoRedo.RedoneWith | src/lazylabel/core/undo_redo_manager.py:90-129 | redo on both stacks. A handler's record_action pushes the fresh record and empties the redo stack; the variant without re-recording is the corrected redo of the Findings row. |
| UndoRedo.Redone | src/lazylabel/core/undo_redo_manager.py:90-129 | redo as written, re-recording clicks. |
| UndoRedo.PointClickAppends | src/lazylabel/core/undo_redo_manager.py:357-376 | A replayed single-view point click that the guards let through appends the transformed point and records the click. |
| UndoRedo.AddPointUndoRedo | src/lazylabel/core/undo_redo_manager.py:170-193 | Undo then redo of a point click whose transformed position ends its list gives the world back; the undo stack ends in the fresh record and the redo stack is empty. |
| UndoRedo.AddPointRedoUndo | src/lazylabel/core/undo_redo_manager.py:357-376 | Redo then undo of a point click gives the world back; the redone action stays on the undo stack and the fresh record moves to the redo stack. |
| UndoRedo.RefusedPointRedoKeepsAction | src/lazylabel/core/undo_redo_manager.py:357-376 | A redo of a point click that add_point refuses adds no point, yet the click stays on the undo stack and leaves the redo stack. |
| UndoRedo.PolygonClickAppends | src/lazylabel/core/undo_redo_manager.py:394-406 | A replayed vertex click that does not close the polygon appends the vertex and records the click unchanged. |
| UndoRedo.PolygonPointUndoRedo | src/lazylabel/core/undo_redo_manager.py:230-241 | Undo then redo of a vertex click gives the world back; the click is on the undo stack again and the redo stack is empty. |
| UndoRedo.PolygonPointRedoUndo | src/lazylabel/core/undo_redo_manager.py:394-406 | Redo then undo of a vertex click gives the world back; the click stays on the undo stack and is on the redo stack once more. |
| UndoRedo.ClickOnTop | src/lazylabel/core/undo_redo_manager.py:170-241 | The undo top is a click that undo takes back and redo replays without being refused or closing a polygon. |
| UndoRedo.ClickRedoDropsRedoHistory | src/lazylabel/core/undo_redo_manager.py:357-406 | As written, undo then redo of such a click gives the world back, but it empties a non-empty redo stack, so the history is not restored. |
| UndoRedo.IntendedRedoRestoresClick | src/lazylabel/core/undo_redo_manager.py:357-406 | With a redo that does not re-record, undo then redo of such a click restores both stacks and the world. |
| UndoRedo.RecordedIsKept | src/lazylabel/core/undo_redo_manager.py:104-125 | A redo handler records something only when its action stays on the undo stack unchanged. |
| UndoRedo.UndoEraseAsWritten | src/lazylabel/core/undo_redo_manager.py:505-515 | The single-view erase undo as written: add_segment of each bookkeeping wrapper. UndoRedo.UndoEraseAsWrittenLosesSegment shows that the erased segment does not come back. |
| UndoRedo.UndoRedoManager.UndoClick | src/lazylabel/core/undo_redo_manager.py:170-241 | The two click undos: the last point of the click's list goes, or nothing for a multi-view point, and the action stays on the redo stack. |
| UndoRedo.UndoRedoManager.RedoRemoval | src/lazylabel/core/undo_redo_manager.py:519-600 | The erase and delete redos: an empty record leaves the undo stack; otherwise as many segments as the record holds go from the end. |
| UndoRedo.UndoRedoManager.RedoClickHandler | src/lazylabel/core/undo_redo_manager.py:357-406 | The two click redos: a missing or refused click is dropped or kept as the step says; any other is replayed and re-recorded, which empties the redo stack. |
| UndoRedo.UndoRedoManager.RedoAddPoint | src/lazylabel/ui/managers/ai_segment_manager.py:363-440 | add_point from the point redo: the point lists and the stacks become what UndoRedo.AddPointStep gives. |
| UndoRedo.UndoRedoManager.RedoPolygonClick | src/lazylabel/ui/managers/polygon_drawing_manager.py:68-120 | handle_polygon_click from the vertex redo: the state and stacks become what UndoRedo.PolygonClickStep gives. |
| UndoRedo.UndoRedoManager.FinalizePolygonHandler | src/lazylabel/ui/managers/polygon_drawing_manager.py:166-224 | finalize_polygon followed by clear_all_points: the state and stacks become what UndoRedo.FinalizePolygon gives. |
| UndoRedo.UndoRedoManager.ErasePolygonHandler | src/lazylabel/ui/managers/polygon_drawing_manager.py:175-198 | The erase branch: the segments become the erase's result, the points are cleared, and the erase is recorded only when it hit a segment. |
| UndoRedo.UndoRedoManager.AddPolygonHandler | src/lazylabel/ui/managers/polygon_drawing_manager.py:199-217 | The add branch: a Polygon segment is appended and recorded by its index, and the points are cleared. |

## Left out

- File, network and image I/O (loading, saving, reading NumPy and JSON files) is outside the model. So are the Qt scene items, pens, brushes, z-values and painting: the model keeps only the state these views read.
- Qt signals other than those recorded in the ghost event logs are left out, because their delivery is framework behaviour.
- Threads, workers and their `run()` bodies are left out, together with progress callbacks. The model is sequential.
- Cancellation arriving while a propagation run is in progress is left out. The model checks the cancel flag at the points the code reads it, but between calls, and assumes no request arrives mid-run.
- Predictor calls are left out: SAM inference, `add_video_mask`, `reset_video_state` and `cleanup_video_predictor`. Predictions enter the model as parameters.
- OpenCV contour extraction, floating-point rounding and colour hue computation are left out. Click positions, polygon vertices and the polygon join threshold are exact reals (`int()` of a float is modelled by UndoRedo.Trunc); crop rectangles and mask pixels are integers; colours are opaque values.
- Crop rounding of non-integer coordinates is left out: crop rectangles are integer.
- The multi-view erase operation and the multi-view shift of graphics items after a deletion are left out, being graphics-item bookkeeping.
- Multi-view undo recording is left out: it appends to history lists (`action_history`, `redo_history`) that the main window does not define.
- MultiViewMode.MultiViewMode: the class keeps as its own fields attributes of its host window that the main window (src/lazylabel/ui/main_window.py) never assigns: `multi_view_linked` (field `linked`), `multi_view_images` (field `hasImage`, whether each viewer shows an image), `multi_view_bbox_starts` (`bboxStarts`), `multi_view_bbox_rects` (`bboxRects`, whether a rubber band exists) and `multi_view_ai_predictions` (`aiPredictions`). Only `multi_view_polygon_points` (`polygonPoints`) and `segment_manager` (`store`) are defined there. The program creates the box and prediction attributes on first use behind `hasattr` guards, which the model replaces by initial values; it reads `multi_view_linked` and `multi_view_images` without a guard (src/lazylabel/ui/modes/multi_view_mode.py:98, 459-460), where the program would raise AttributeError and the model instead takes them from the constructor.
- The iteration order of the `segment_items` dictionary is not modelled. The model keeps the set of keys.
- Unicode lower-casing and Windows path separators are left out. Lower-casing is ASCII only, and the path basename follows POSIX.
- The propagation getters `get_image_path_for_frame`, `get_frame_idx_for_path` and `get_propagation_stats` are left out: each is a plain lookup or count over state the model already exposes.
- The concrete domain of `init_sequence` is not modelled. It becomes an abstract list of image paths.
- Timeline painting and zoom are left out (`_frame_to_x` / `_x_to_frame`, paint events).
- Sequence `to_dict`/`from_dict` serialisation and `get_all_frame_statuses` are left out. The status of one frame is modelled.
- TrimFrames: returns None both for a ValueError and for an IndexError, without telling the two exceptions apart.
- The single-file navigation wrappers `getSurroundingFiles`, `getPreviousFiles`, `getConsecutiveFile`, `navigateNext` and `navigatePrevious` are left out, together with the FastFileManager highlight wrappers. They select views of the sorted list that the model already orders.
- Crop drawing items are left out: `start_crop_drawing`, `clear_crop`, the `apply_crop_coordinates` dispatch and the multi-view crop methods. The crop rectangle computation and the mask they apply is modelled.
- `can_undo` and `can_redo` are left out: each is a non-emptiness test of a history list the model exposes.
- `convert_ai_segments_to_polygons` is left out, because it depends on contour extraction.
- ImagePreload.ImagePreloadManager.constructor: requires a positive maximum, because with a maximum of 0 the eviction loop pops from an empty dictionary and raises KeyError.
- Per-viewer dictionaries (keys 0 and 1) are two-element sequences.
- EmbeddingCache.EmbeddingCacheManager.constructor: takes a non-negative `max_size` (a `nat`). With a negative one, `put` raises KeyError, because the loop `while len(cache) > max_size` goes on popping from an empty cache (src/lazylabel/ui/managers/embedding_cache_manager.py:70-71). The model does not represent that failure.
- Text.IsSpace: covers only ASCII whitespace (tab to carriage return, the four separators 28-31 and the space). Python's `str.split()`, `str.strip()` and `int()` also treat `\x85`, `\xa0` and the other Unicode spaces as whitespace. Text containing those characters is therefore split, stripped and parsed differently in the model.
- Propagation.Yielded: the frame index of a predictor output is a `nat`. The model assumes SAM 2 never yields a negative frame index; the program does not check this.
- Vertex lists the program shares through shallow copies are modelled with value semantics, so aliasing between mirrored segments is not captured.
- SamInitWorker.ModelTypeOf: its ensures state only the sam2_tiny and vit_l branches by name, besides the seven-type bound and the SAM 2 / SAM 1 split. The remaining branches are in the body.

- A `class_id` key that is absent and one that holds None are the same `None` in the segment record (segments.dfy:5). The program treats them alike almost everywhere, but `add_segment` tests only for the key (src/lazylabel/core/segment_manager.py:34), so a segment stored with `"class_id": None` keeps None there while the model gives it the default class. The same conflation applies in the sequence reference capture (src/lazylabel/ui/modes/sequence_view_mode.py:242) and in propagation (src/lazylabel/ui/managers/propagation_manager.py:445).
- The display-to-SAM coordinate transform of `add_point` is a parameter of the redo context (`Ui.toSam`), as are the readiness guards, the state of the Shift key, the polygon join threshold and the image operations of a Shift-closed polygon.
- A polygon point is taken to be missing when it is the null point (0, 0), because a `QPointF` at the origin tests false in the redo's `if not point_coords` guard. A real click at the origin is therefore not replayed, as in the program.
- The multi-view redo handlers for a point and a polygon point are modelled only through whether the main window offers their entry points (`Ui.canAddMultiPoint`, `Ui.canClickMultiPolygon`). The multi-view point lists are not part of the undo state.
- UndoRedo.UndoRedoManager.Redo: runs the redo as written, so a replayed click records itself anew and empties the redo stack. The fourth Findings row states this, and UndoRedo.IntendedRedoRestoresClick proves the corrected redo on the model's functions only.
- UndoRedo.UndoRedoManager.AddSegments: runs the corrected erase undo of the first Findings row, re-adding each record's segment rather than the bookkeeping wrapper.
- UndoRedo.UndoErase: states the corrected erase undo of the first Findings row; UndoRedo.UndoEraseAsWritten is the handler as written.
- FileModel.FastFileModel.GetVisibleColumnIndex: runs the corrected conversion of the third Findings row, returning -1 for a negative column instead of wrapping.
- SegmentDisplay.SegmentDisplayManager.ShiftCacheAfterDeletion: runs the corrected highlight-cache shift of the second Findings row, unpacking the four-part keys.

## Findings

| source | as written | input that shows it | evidently intended | confidence | as-written member | corrected member |
|---|---|---|---|---|---|---|
| src/lazylabel/core/undo_redo_manager.py:505-515 | undoing an erase re-adds each recorded entry, which is a wrapper holding an index and the segment, rather than the segment itself | erase a polygon segment, then undo | the erased segment comes back with its type, mask and vertices | not executed | UndoRedo.UndoEraseAsWrittenLosesSegment | UndoRedo.EraseUndoRestores |
| src/lazylabel/ui/managers/segment_display_manager.py:173 | the highlight-cache shift unpacks each key into three names, but highlight keys have four parts | delete any segment while the highlight cache holds an entry | highlight entries are renumbered like the other caches | not executed | SegmentDisplay.HighlightShiftAsWrittenFails | SegmentDisplay.ShiftedKeeps |
| src/lazylabel/utils/fast_file_manager.py:354-366 | the logical-to-visible column conversion indexes the visibility list with the column as given, so -1 wraps to the last column | column -1 with the last column visible | -1 for an out-of-range column | not executed | FileModel.NegativeColumnAsWritten | FileModel.ColumnIndexRoundTrip |
| src/lazylabel/core/undo_redo_manager.py:357-406 | the redo of a point or polygon-point click calls the click handler, which records the click again through record_action and so empties the redo stack | add two points, undo twice, redo once | redo restores the click without losing the remaining redo history | not executed | UndoRedo.ClickRedoDropsRedoHistory | UndoRedo.IntendedRedoRestoresClick |
